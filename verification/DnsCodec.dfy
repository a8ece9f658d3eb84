/** DNS messages on the wire: the query writer, the question reader and the response parser. */
module DnsCodec {
  import opened Sequences
  import opened Text
  import opened Numbers
  import opened Bytes

  const DOT: Byte := 46
  const TTL_UNKNOWN := 0xFFFF_FFFF

  datatype QType = A | Aaaa {
    /** The TYPE value on the wire. */
    function Code(): nat { if A? then 1 else 28 }

    function AddressSize(): nat { if A? then 4 else 16 }
  }

  // ---------------------------------------------------------------- host names

  function Split(host: seq<Byte>): (labels: seq<seq<Byte>>)
    ensures |labels| >= 1
  {
    if host == [] then [[]]
    else
      var rest := Split(host[1..]);
      if host[0] == DOT then [[]] + rest else [[host[0]] + rest[0]] + rest[1..]
  }

  function Join(labels: seq<seq<Byte>>): seq<Byte> {
    if labels == [] then []
    else if |labels| == 1 then labels[0]
    else labels[0] + [DOT] + Join(labels[1..])
  }

  lemma {:induction false} JoinSplit(host: seq<Byte>)
    ensures Join(Split(host)) == host
    ensures forall k :: 0 <= k < |Split(host)| ==> 46 !in Split(host)[k]
  {
    if host != [] {
      JoinSplit(host[1..]);
      var rest := Split(host[1..]);
      if host[0] == DOT {
        assert Split(host)[1..] == rest;
      } else {
        assert Split(host)[1..] == rest[1..];
      }
      assert host == [host[0]] + host[1..];
    }
  }

  /** Labels on the wire. A length is cut to one byte. */
  function LabelBytes(labels: seq<seq<Byte>>): seq<Byte> {
    if labels == [] then [] else [|labels[0]| % 256] + labels[0] + LabelBytes(labels[1..])
  }

  // ---------------------------------------------------------------- writing a query

  function QueryHead(id: nat): seq<Byte>
    requires id < 0x1_0000
  {
    Word(id) + [1, 0, 0, 1, 0, 0, 0, 0, 0, 0]
  }

  function QueryTail(q: QType): seq<Byte> {
    Word(q.Code()) + [0, 1]
  }

  function Query(host: seq<Byte>, id: nat, q: QType): seq<Byte>
    requires id < 0x1_0000
  {
    QueryHead(id) + LabelBytes(Split(host)) + [0] + QueryTail(q)
  }

  /** OutOfBounds is a write past the buffer that no length check catches. */
  datatype Built = Built(len: nat) | TooLarge | OutOfBounds

  /**
   Write a query into `buf`. The length checks cover the name, not the four bytes after it: a name
   that leaves fewer than five bytes passes them and runs off the end.
   */
  method BuildAQuery(host: seq<Byte>, id: nat, q: QType, buf: array<Byte>) returns (r: Built)
    requires id < 0x1_0000
    modifies buf
    ensures r.Built? ==> r.len == |Query(host, id, q)| <= buf.Length && buf[..r.len] == Query(host, id, q)
    ensures r.Built? <==> |Query(host, id, q)| <= buf.Length
    ensures r == TooLarge <==> 12 <= buf.Length <= |Query(host, id, q)| - 5
  {
    hide LabelBytes, Split, QueryHead, QueryTail, Word;
    ghost var all := LabelBytes(Split(host));
    QuerySize(host, id, q);
    if buf.Length < 12 {
      return OutOfBounds;
    }
    CopyInto(buf, 0, QueryHead(id));
    var w := 12;
    var labels := Split(host);
    assert buf[..w] == QueryHead(id);
    assert labels[0..] == labels;
    for i := 0 to |labels|
      invariant 12 <= w <= buf.Length
      invariant buf[..w] + LabelBytes(labels[i..]) == QueryHead(id) + all
    {
      ghost var start, rest := buf[..w], LabelBytes(labels[i + 1..]);
      OneLabel(labels, i);
      assert start + ([|labels[i]| % 256] + labels[i] + rest) == QueryHead(id) + all;
      Associate(start, [|labels[i]| % 256] + labels[i], rest);
      var fits;
      fits, w := WriteLabel(labels[i], w, buf);
      if !fits {
        assert |start + ([|labels[i]| % 256] + labels[i] + rest)| == 12 + |all|;
        return TooLarge;
      }
    }
    assert buf[..w] == QueryHead(id) + all by { NoLabels(labels, buf[..w]); }
    if w >= buf.Length {
      return TooLarge;
    }
    if w + 5 > buf.Length {
      return OutOfBounds;
    }
    ghost var before := buf[..w];
    CopyInto(buf, w, [0] + QueryTail(q));
    assert buf[..w + 5] == before + ([0] + QueryTail(q)) == QueryHead(id) + all + [0] + QueryTail(q);
    r := Built(w + 5);
  }

  /** One length byte and one label; false as soon as a byte does not fit. */
  method WriteLabel(part: seq<Byte>, start: nat, buf: array<Byte>) returns (fits: bool, w: nat)
    requires start <= buf.Length
    modifies buf
    ensures fits <==> start + 1 + |part| <= buf.Length
    ensures fits ==> w == start + 1 + |part| && buf[..w] == old(buf[..start]) + ([|part| % 256] + part)
  {
    w := start;
    if w >= buf.Length {
      return false, w;
    }
    buf[w] := |part| % 256;
    w := w + 1;
    for k := 0 to |part|
      invariant w == start + 1 + k <= buf.Length
      invariant buf[..w] == old(buf[..start]) + [|part| % 256] + part[..k]
    {
      if w >= buf.Length {
        return false, w;
      }
      buf[w] := part[k];
      w := w + 1;
      assert buf[..w] == buf[..w - 1] + [part[k]];
      assert part[..k + 1] == part[..k] + [part[k]];
    }
    assert part[..|part|] == part;
    fits := true;
  }

  lemma QuerySize(host: seq<Byte>, id: nat, q: QType)
    requires id < 0x1_0000
    ensures |QueryHead(id)| == 12 && |QueryTail(q)| == 4
    ensures |Query(host, id, q)| == 12 + |LabelBytes(Split(host))| + 5
  {}

  /** The fixed bytes of a query: recursion desired, one question, of class IN and type 1 or 28. */
  lemma QueryBytes(host: seq<Byte>, id: nat, q: QType)
    requires id < 0x1_0000
    ensures var query := Query(host, id, q);
            && |query| >= 17
            && query[..12] == [id / 256, id % 256, 1, 0, 0, 1, 0, 0, 0, 0, 0, 0]
            && query[|query| - 5..] == [0, 0, if q == A then 1 else 28, 0, 1]
  {
    hide LabelBytes, Split;
  }

  /** The labels of a name take one byte more than the name. */
  lemma {:induction false} LabelsSize(host: seq<Byte>)
    ensures |LabelBytes(Split(host))| == |host| + 1
  {
    if host == [] {
      assert Split(host) == [[]] && LabelBytes([[]][1..]) == [];
    } else {
      LabelsSize(host[1..]);
      var rest := Split(host[1..]);
      assert LabelBytes(rest) == [|rest[0]| % 256] + rest[0] + LabelBytes(rest[1..]);
      if host[0] == DOT {
        assert ([[]] + rest)[1..] == rest;
      } else {
        assert ([[host[0]] + rest[0]] + rest[1..])[1..] == rest[1..];
      }
    }
  }

  const LONG_NAME: seq<Byte> := seq(495, i => if i % 64 == 63 then DOT else 97)

  /** Labels of 63 bytes, and a query of 513 bytes for the buffer of 512 that the resolver over TCP provides. */
  method LongNameRunsOffTheBuffer() returns (r: Built)
    ensures r == OutOfBounds
  {
    var buf := new Byte[512];
    LabelsSize(LONG_NAME);
    QuerySize(LONG_NAME, 0, A);
    r := BuildAQuery(LONG_NAME, 0, A, buf);
  }

  lemma OneLabel(labels: seq<seq<Byte>>, i: nat)
    requires i < |labels|
    ensures LabelBytes(labels[i..]) == [|labels[i]| % 256] + labels[i] + LabelBytes(labels[i + 1..])
  {
    assert labels[i..][1..] == labels[i + 1..];
  }

  lemma NoLabels(labels: seq<seq<Byte>>, s: seq<Byte>)
    ensures s + LabelBytes(labels[|labels|..]) == s
  {}

  // ---------------------------------------------------------------- reading a question

  /** The labels of the name at `i` and the index after it; None when a label runs past the end. */
  function ReadLabels(s: seq<Byte>, i: nat): Option<(seq<seq<Byte>>, nat)>
    decreases |s| - i
  {
    if i >= |s| then Some(([], i))
    else if s[i] == 0 then Some(([], i + 1))
    else if i + 1 + s[i] > |s| then None
    else
      match ReadLabels(s, i + 1 + s[i])
      case None => None
      case Some((labels, end)) => Some(([s[i + 1..i + 1 + s[i]]] + labels, end))
  }

  datatype Question = Question(name: seq<Byte>, qtype: nat, end: nat)

  /** The question at `i`: a name of at least one label, a type and a class. */
  function ReadQuestion(s: seq<Byte>, i: nat): Option<Question> {
    match ReadLabels(s, i)
    case None => None
    case Some((labels, end)) =>
      if labels == [] || end + 4 > |s| then None
      else Some(Question(Join(labels), U16(s[end], s[end + 1]), end + 4))
  }

  predicate Sized(part: seq<Byte>) {
    1 <= |part| <= 255
  }

  lemma {:induction false} LabelsReadBack(s: seq<Byte>, i: nat, labels: seq<seq<Byte>>, rest: seq<Byte>)
    requires i <= |s| && s[i..] == LabelBytes(labels) + [0] + rest
    requires forall k :: 0 <= k < |labels| ==> Sized(labels[k])
    ensures ReadLabels(s, i) == Some((labels, i + |LabelBytes(labels)| + 1))
    decreases |labels|
  {
    if labels != [] {
      var part := labels[0];
      FirstLabel(s, i, labels, rest);
      LabelsReadBack(s, i + 1 + |part|, labels[1..], rest);
      assert labels == [part] + labels[1..];
    } else {
      assert s[i] == s[i..][0];
    }
  }

  lemma FirstLabel(s: seq<Byte>, i: nat, labels: seq<seq<Byte>>, rest: seq<Byte>)
    requires labels != [] && |labels[0]| < 256
    requires i <= |s| && s[i..] == LabelBytes(labels) + [0] + rest
    ensures i + 1 + |labels[0]| <= |s| && s[i] == |labels[0]| && s[i + 1..i + 1 + |labels[0]|] == labels[0]
    ensures s[i + 1 + |labels[0]|..] == LabelBytes(labels[1..]) + [0] + rest
  {
    var part, more := labels[0], LabelBytes(labels[1..]);
    assert LabelBytes(labels) == [|part|] + part + more;
    hide LabelBytes;
    Regroup([|part|] + part, more, [0], rest);
    Pieces(s, i, |part|, part, more + [0] + rest);
  }

  lemma Pieces(s: seq<Byte>, i: nat, a: Byte, b: seq<Byte>, c: seq<Byte>)
    requires i <= |s| && s[i..] == [a] + b + c
    ensures i + 1 + |b| <= |s| && s[i] == a && s[i + 1..i + 1 + |b|] == b && s[i + 1 + |b|..] == c
  {
    var t := s[i..];
    assert t[0] == a && t[1..1 + |b|] == b && t[1 + |b|..] == c;
  }

  /** A label that is empty or longer than a length byte can say never reads back. */
  lemma {:induction false} BadLabelsDoNotReadBack(s: seq<Byte>, i: nat, labels: seq<seq<Byte>>, rest: seq<Byte>)
    requires i <= |s| && s[i..] == LabelBytes(labels) + [0] + rest && labels != []
    requires forall k :: 0 <= k < |labels| ==> DOT !in labels[k]
    requires exists k :: 0 <= k < |labels| && !Sized(labels[k])
    ensures ReadLabels(s, i).Some? ==> ReadLabels(s, i).value.0 == [] || Join(ReadLabels(s, i).value.0) != Join(labels)
    decreases |labels|
  {
    hide Join, LabelBytes, Sized;
    var part := labels[0];
    if Sized(part) {
      SizedFits(part);
      FirstLabel(s, i, labels, rest);
      StillUnsized(labels);
      BadLabelsDoNotReadBack(s, i + 1 + |part|, labels[1..], rest);
      if ReadLabels(s, i).Some? {
        JoinDiffers(part, ReadLabels(s, i + 1 + |part|).value.0, labels[1..]);
        assert labels == [part] + labels[1..];
      }
    } else {
      UnsizedLabel(s, i, labels, rest);
      if ReadLabels(s, i).Some? && ReadLabels(s, i).value.0 != [] {
        CutLabelDiffers(part, |part| % 256, ReadLabels(s, i).value.0, labels);
      }
    }
  }

  lemma SizedFits(part: seq<Byte>)
    requires Sized(part)
    ensures 1 <= |part| < 256
  {}

  lemma StillUnsized(labels: seq<seq<Byte>>)
    requires labels != [] && Sized(labels[0])
    requires exists k :: 0 <= k < |labels| && !Sized(labels[k])
    ensures exists k :: 0 <= k < |labels[1..]| && !Sized(labels[1..][k])
  {
    var k :| 0 <= k < |labels| && !Sized(labels[k]);
    assert labels[1..][k - 1] == labels[k];
  }

  lemma UnsizedLabel(s: seq<Byte>, i: nat, labels: seq<seq<Byte>>, rest: seq<Byte>)
    requires i <= |s| && s[i..] == LabelBytes(labels) + [0] + rest && labels != [] && !Sized(labels[0])
    ensures ReadLabels(s, i).Some? && ReadLabels(s, i).value.0 != [] ==>
      |labels[0]| % 256 < |labels[0]| && ReadLabels(s, i).value.0[0] == labels[0][..|labels[0]| % 256]
  {
    hide LabelBytes;
    var part, m := labels[0], |labels[0]| % 256;
    LabelBytesUnfold(labels);
    Regroup([m] + part, LabelBytes(labels[1..]), [0], rest);
    Pieces(s, i, m, part, LabelBytes(labels[1..]) + [0] + rest);
    if part != [] {
      CutSlice(s, i + 1, part, m);
    }
  }

  lemma CutSlice(s: seq<Byte>, i: nat, part: seq<Byte>, m: nat)
    requires i + |part| <= |s| && s[i..i + |part|] == part && m <= |part|
    ensures s[i..i + m] == part[..m]
  {}

  lemma JoinDiffers(part: seq<Byte>, a: seq<seq<Byte>>, b: seq<seq<Byte>>)
    requires b != [] && (a == [] || Join(a) != Join(b))
    ensures Join([part] + a) != Join([part] + b)
  {
    assert ([part] + a)[1..] == a && ([part] + b)[1..] == b;
    var whole := part + [DOT] + Join(b);
    assert whole[|part| + 1..] == Join(b);
    if a != [] {
      assert (part + [DOT] + Join(a))[|part| + 1..] == Join(a);
    }
  }

  lemma CutLabelDiffers(part: seq<Byte>, m: nat, read: seq<seq<Byte>>, labels: seq<seq<Byte>>)
    requires m < |part| && DOT !in part && labels != [] && labels[0] == part
    requires read != [] && read[0] == part[..m]
    ensures Join(read) != Join(labels)
  {
    assert Join(labels)[m] == part[m];
    if |read| > 1 {
      assert Join(read)[m] == DOT;
    }
  }

  /**
   The question a query carries reads back as the host it was built for exactly when every label has 1
   to 255 bytes.
   */
  lemma QuestionReadsBackIffSized(host: seq<Byte>, id: nat, q: QType)
    requires id < 0x1_0000
    ensures ReadQuestion(Query(host, id, q), 12) == Some(Question(host, q.Code(), |Query(host, id, q)|))
       <==> forall k :: 0 <= k < |Split(host)| ==> Sized(Split(host)[k])
  {
    var s, labels, tail := Query(host, id, q), Split(host), QueryTail(q);
    JoinSplit(host);
    QueryFromName(host, id, q);
    if forall k :: 0 <= k < |labels| ==> Sized(labels[k]) {
      LabelsReadBack(s, 12, labels, tail);
      var end := 12 + |LabelBytes(labels)| + 1;
      assert s[end] == tail[0] && s[end + 1] == tail[1];
      WordReadsBack(q.Code());
    } else {
      BadLabelsDoNotReadBack(s, 12, labels, tail);
    }
  }

  lemma QueryFromName(host: seq<Byte>, id: nat, q: QType)
    requires id < 0x1_0000
    ensures var s := Query(host, id, q);
            |s| == 12 + |LabelBytes(Split(host))| + 5 && s[12..] == LabelBytes(Split(host)) + [0] + QueryTail(q)
  {
    assert QueryHead(id) + LabelBytes(Split(host)) + [0] + QueryTail(q)
        == QueryHead(id) + (LabelBytes(Split(host)) + [0] + QueryTail(q));
  }

  // ---------------------------------------------------------------- parsing a response

  /** Where skipping over labels ends: at a zero byte, or past the message. */
  function SkipLabels(s: seq<Byte>, i: nat): nat
    decreases |s| - i
  {
    if i < |s| && s[i] != 0 then SkipLabels(s, i + 1 + s[i]) else i
  }

  /** Names are skipped as a pointer or as labels up to a zero byte, never as labels up to a pointer. */
  function SkipName(s: seq<Byte>, i: nat): nat
    requires i < |s|
  {
    if s[i] >= 0xC0 then i + 2 else SkipLabels(s, i) + 1
  }

  /** One record of the answer section; no data when it runs past the message. */
  datatype Found = Found(rtype: nat, ttl: nat, data: Option<seq<Byte>>)

  /** The record at `i` and the index after it; None where parsing stops. */
  function RecordAt(s: seq<Byte>, i: nat): Option<(Found, nat)> {
    if i >= |s| || SkipName(s, i) + 10 > |s| then None
    else
      var h := SkipName(s, i);
      var end := h + 10 + U16(s[h + 8], s[h + 9]);
      Some((Found(U16(s[h], s[h + 1]), U32(s[h + 4], s[h + 5], s[h + 6], s[h + 7]),
                  if end <= |s| then Some(s[h + 10..end]) else None), end))
  }

  function Records(s: seq<Byte>, i: nat, count: nat): seq<Found>
    decreases count
  {
    if count == 0 || RecordAt(s, i) == None then []
    else [RecordAt(s, i).value.0] + Records(s, RecordAt(s, i).value.1, count - 1)
  }

  predicate Wanted(f: Found, q: QType) {
    f.rtype == q.Code() && f.data.Some? && |f.data.value| == q.AddressSize()
  }

  function Addresses(found: seq<Found>, q: QType): seq<seq<Byte>> {
    if found == [] then []
    else (if Wanted(found[0], q) then [found[0].data.value] else []) + Addresses(found[1..], q)
  }

  function LowestTtl(found: seq<Found>, q: QType, atMost: nat): nat
    decreases |found|
  {
    if found == [] then atMost
    else LowestTtl(found[1..], q, if found[0].rtype == q.Code() then Min(atMost, found[0].ttl) else atMost)
  }

  function Reported(ttl: nat): nat {
    if ttl == TTL_UNKNOWN then 0 else ttl
  }

  /** The addresses of the asked family and their lowest TTL; None only for a message without a header. */
  function ParseResponse(s: seq<Byte>, q: QType): (r: Option<(seq<seq<Byte>>, nat)>)
  {
    if |s| < 12 then None
    else
      var found := Records(s, SkipLabels(s, 12) + 5, U16(s[6], s[7]));
      Some((Addresses(found, q), Reported(LowestTtl(found, q, TTL_UNKNOWN))))
  }

  method ParseAResponse(s: seq<Byte>, q: QType) returns (r: Option<(seq<seq<Byte>>, nat)>)
    ensures r == ParseResponse(s, q)
    ensures r == None <==> |s| < 12
  {
    hide Records, Addresses, LowestTtl, U16, U32, SkipLabels;
    if |s| < 12 {
      return None;
    }
    var count := U16(s[6], s[7]);
    var i: nat := Skip(s, 12);
    i := i + 5;
    ghost var found := Records(s, i, count);
    var out: seq<seq<Byte>> := [];
    var minTtl: nat := TTL_UNKNOWN;
    var left: nat := count;
    assert [] + Addresses(found, q) == Addresses(found, q);
    while left > 0
      invariant out + Addresses(Records(s, i, left), q) == Addresses(found, q)
      invariant LowestTtl(Records(s, i, left), q, minTtl) == LowestTtl(found, q, TTL_UNKNOWN)
    {
      ghost var at := i;
      RecordsFrom(s, i, left, q, minTtl);
      if i >= |s| {
        NoRecords(s, at, left, q, minTtl);
        break;
      }
      if s[i] >= 0xC0 {
        i := i + 2;
      } else {
        i := Skip(s, i);
        i := i + 1;
      }
      if i + 10 > |s| {
        NoRecords(s, at, left, q, minTtl);
        break;
      }
      var rtype := U16(s[i], s[i + 1]);
      var ttl := U32(s[i + 4], s[i + 5], s[i + 6], s[i + 7]);
      var rdlen := U16(s[i + 8], s[i + 9]);
      i := i + 10;
      ghost var record := RecordAt(s, at).value;
      assert record == (Found(rtype, ttl, if i + rdlen <= |s| then Some(s[i..i + rdlen]) else None), i + rdlen);
      if rtype == q.Code() {
        minTtl := Min(minTtl, ttl);
        if q == A && rdlen == 4 && i + 4 <= |s| {
          out := out + [s[i..i + 4]];
        } else if q == Aaaa && rdlen == 16 && i + 16 <= |s| {
          out := out + [s[i..i + 16]];
        }
      }
      i := i + rdlen;
      left := left - 1;
    }
    if left == 0 {
      NoRecords(s, i, 0, q, minTtl);
    }
    assert out + [] == out;
    r := Some((out, if minTtl == TTL_UNKNOWN then 0 else minTtl));
  }

  method Skip(s: seq<Byte>, start: nat) returns (i: nat)
    ensures i == SkipLabels(s, start)
  {
    i := start;
    while i < |s| && s[i] != 0
      invariant SkipLabels(s, i) == SkipLabels(s, start)
      decreases |s| - i
    {
      i := i + 1 + s[i];
    }
  }

  /** What the first record adds to the result. */
  lemma RecordsFrom(s: seq<Byte>, i: nat, left: nat, q: QType, low: nat)
    requires left > 0
    ensures RecordAt(s, i) == None ==> Records(s, i, left) == []
    ensures RecordAt(s, i).Some? ==> var (f, next) := RecordAt(s, i).value;
      && Addresses(Records(s, i, left), q) == (if Wanted(f, q) then [f.data.value] else []) + Addresses(Records(s, next, left - 1), q)
      && LowestTtl(Records(s, i, left), q, low) == LowestTtl(Records(s, next, left - 1), q, if f.rtype == q.Code() then Min(low, f.ttl) else low)
  {
    hide RecordAt;
    if RecordAt(s, i).Some? {
      var (f, next) := RecordAt(s, i).value;
      assert Records(s, i, left)[1..] == Records(s, next, left - 1);
    }
  }

  lemma NoRecords(s: seq<Byte>, i: nat, left: nat, q: QType, low: nat)
    requires left == 0 || RecordAt(s, i) == None
    ensures Records(s, i, left) == [] && Addresses([], q) == [] && LowestTtl([], q, low) == low
  {}

  // ---------------------------------------------------------------- writing a response

  /** A name as an answer may carry it: labels, then a pointer or the end. */
  datatype Name = Name(labels: seq<seq<Byte>>, pointer: Option<nat>)

  predicate Short(part: seq<Byte>) {
    1 <= |part| <= 63
  }

  predicate ValidName(n: Name) {
    (forall k :: 0 <= k < |n.labels| ==> Short(n.labels[k])) && (n.pointer.Some? ==> n.pointer.value < 0x4000)
  }

  function NameBytes(n: Name): seq<Byte>
    requires ValidName(n)
  {
    LabelBytes(n.labels) + if n.pointer.Some? then Word(0xC000 + n.pointer.value) else [0]
  }

  /** A pointer alone, or no pointer at all. */
  predicate Plain(n: Name) {
    n.pointer == None || n.labels == []
  }

  datatype Answer = Answer(name: Name, rtype: nat, rclass: nat, ttl: nat, data: seq<Byte>)

  predicate ValidAnswer(a: Answer) {
    ValidName(a.name) && a.rtype < 0x1_0000 && a.rclass < 0x1_0000 && a.ttl < 0x1_0000_0000 && |a.data| < 0x1_0000
  }

  function RecordHead(a: Answer): seq<Byte>
    requires ValidAnswer(a)
  {
    Word(a.rtype) + Word(a.rclass) + Wide(a.ttl) + Word(|a.data|)
  }

  predicate AllValid(answers: seq<Answer>) {
    forall k :: 0 <= k < |answers| ==> ValidAnswer(answers[k])
  }

  function AnswerBytes(answers: seq<Answer>): seq<Byte>
    requires AllValid(answers)
  {
    if answers == [] then []
    else NameBytes(answers[0].name) + RecordHead(answers[0]) + answers[0].data + AnswerBytes(answers[1..])
  }

  /** A response with one question: `start` holds the id, flags and question count, `middle` the other counts. */
  function Response(start: seq<Byte>, middle: seq<Byte>, question: seq<seq<Byte>>, asked: seq<Byte>,
                    answers: seq<Answer>): seq<Byte>
    requires |start| == 6 && |middle| == 4 && |asked| == 4 && AllValid(answers) && |answers| < 0x1_0000
  {
    start + Word(|answers|) + middle + (LabelBytes(question) + [0] + asked) + AnswerBytes(answers)
  }

  predicate Matches(a: Answer, q: QType) {
    a.rtype == q.Code() && |a.data| == q.AddressSize()
  }

  /** The addresses of the asked family, in order. */
  function AddressesOf(answers: seq<Answer>, q: QType): seq<seq<Byte>> {
    if answers == [] then [] else (if Matches(answers[0], q) then [answers[0].data] else []) + AddressesOf(answers[1..], q)
  }

  /** The lowest of `atMost` and the lifetimes of the records of the asked type. */
  function LowestOf(answers: seq<Answer>, q: QType, atMost: nat): nat
    decreases |answers|
  {
    if answers == [] then atMost
    else LowestOf(answers[1..], q, if answers[0].rtype == q.Code() then Min(atMost, answers[0].ttl) else atMost)
  }

  lemma {:induction false} SkipsLabels(s: seq<Byte>, i: nat, labels: seq<seq<Byte>>, rest: seq<Byte>)
    requires i <= |s| && s[i..] == LabelBytes(labels) + rest
    requires forall k :: 0 <= k < |labels| ==> Sized(labels[k])
    ensures SkipLabels(s, i) == SkipLabels(s, i + |LabelBytes(labels)|)
    ensures i + |LabelBytes(labels)| <= |s| && s[i + |LabelBytes(labels)|..] == rest
    decreases |labels|
  {
    hide LabelBytes, SkipLabels;
    LabelBytesUnfold(labels);
    if labels != [] {
      var part, more := labels[0], LabelBytes(labels[1..]);
      assert Sized(part);
      assert [|part| % 256] == [|part|];
      Associate([|part|] + part, more, rest);
      Pieces(s, i, |part|, part, more + rest);
      SkipOneLabel(s, i);
      SkipsLabels(s, i + 1 + |part|, labels[1..], rest);
    }
  }

  lemma SkipOneLabel(s: seq<Byte>, i: nat)
    requires i < |s| && s[i] != 0
    ensures SkipLabels(s, i) == SkipLabels(s, i + 1 + s[i])
  {}

  lemma LabelBytesUnfold(labels: seq<seq<Byte>>)
    ensures labels == [] ==> LabelBytes(labels) == []
    ensures labels != [] ==> LabelBytes(labels) == [|labels[0]| % 256] + labels[0] + LabelBytes(labels[1..])
  {}

  /** Skipping a name lands behind it exactly when the name is plain. */
  lemma NameIsSkippedIffPlain(s: seq<Byte>, i: nat, n: Name, rest: seq<Byte>)
    requires ValidName(n) && i <= |s| && s[i..] == NameBytes(n) + rest
    ensures i < |s| && (SkipName(s, i) == i + |NameBytes(n)| <==> Plain(n))
    ensures i + |NameBytes(n)| <= |s| && s[i + |NameBytes(n)|..] == rest
  {
    var labels := LabelBytes(n.labels);
    var ending := if n.pointer.Some? then Word(0xC000 + n.pointer.value) else [0];
    hide LabelBytes, SkipLabels;
    Associate(labels, ending, rest);
    SkipsLabels(s, i, n.labels, ending + rest);
    var at := i + |labels|;
    Ending(s, at, ending, rest);
    FirstByte(s, i, n.labels, ending + rest);
    LandsPast(s, at);
  }

  lemma Ending(s: seq<Byte>, at: nat, ending: seq<Byte>, rest: seq<Byte>)
    requires at <= |s| && s[at..] == ending + rest && ending != []
    ensures at + |ending| <= |s| && s[at] == ending[0] && s[at + |ending|..] == rest
  {
    assert s[at] == s[at..][0];
    assert s[at + |ending|..] == s[at..][|ending|..];
  }

  lemma FirstByte(s: seq<Byte>, i: nat, labels: seq<seq<Byte>>, rest: seq<Byte>)
    requires i <= |s| && s[i..] == LabelBytes(labels) + rest
    requires forall k :: 0 <= k < |labels| ==> Sized(labels[k])
    ensures labels == [] ==> LabelBytes(labels) == []
    ensures labels != [] ==> |LabelBytes(labels)| > 0 && i < |s| && s[i] == |labels[0]|
  {
    if labels != [] {
      assert s[i] == s[i..][0] == LabelBytes(labels)[0];
    }
  }

  lemma LandsPast(s: seq<Byte>, i: nat)
    ensures SkipLabels(s, i) >= i
    ensures i < |s| && s[i] == 0 ==> SkipLabels(s, i) == i
    ensures i < |s| && s[i] != 0 ==> SkipLabels(s, i) > i + s[i]
    decreases |s| - i
  {
    if i < |s| && s[i] != 0 {
      LandsPast(s, i + 1 + s[i]);
    }
  }

  function FoundIn(answers: seq<Answer>): seq<Found> {
    if answers == [] then [] else [Found(answers[0].rtype, answers[0].ttl, Some(answers[0].data))] + FoundIn(answers[1..])
  }

  lemma RecordReadsBack(s: seq<Byte>, i: nat, a: Answer, rest: seq<Byte>)
    requires ValidAnswer(a) && Plain(a.name)
    requires i <= |s| && s[i..] == NameBytes(a.name) + RecordHead(a) + a.data + rest
    ensures var next := i + |NameBytes(a.name)| + 10 + |a.data|;
            RecordAt(s, i) == Some((Found(a.rtype, a.ttl, Some(a.data)), next)) && next <= |s| && s[next..] == rest
  {
    hide NameBytes, SkipName, RecordHead, U16, U32, Plain;
    var name, head := NameBytes(a.name), RecordHead(a);
    assert |head| == 10 by { RecordHeadSize(a); }
    Regroup(name, head, a.data, rest);
    NameIsSkippedIffPlain(s, i, a.name, head + a.data + rest);
    HeadReadsBack(s, i + |name|, a, rest);
  }

  lemma RecordHeadSize(a: Answer)
    requires ValidAnswer(a)
    ensures |RecordHead(a)| == 10
  {}

  lemma HeadReadsBack(s: seq<Byte>, h: nat, a: Answer, rest: seq<Byte>)
    requires ValidAnswer(a) && h <= |s| && s[h..] == RecordHead(a) + a.data + rest
    ensures h + 10 + |a.data| <= |s| && U16(s[h], s[h + 1]) == a.rtype
    ensures U32(s[h + 4], s[h + 5], s[h + 6], s[h + 7]) == a.ttl
    ensures U16(s[h + 8], s[h + 9]) == |a.data| && s[h + 10..h + 10 + |a.data|] == a.data && s[h + 10 + |a.data|..] == rest
  {
    var head := RecordHead(a);
    assert forall k :: 0 <= k < 10 ==> s[h + k] == s[h..][k] == head[k];
    assert head[0..2] == Word(a.rtype) && head[4..8] == Wide(a.ttl) && head[8..10] == Word(|a.data|);
    WordReadsBack(a.rtype);
    WideReadsBack(a.ttl);
    WordReadsBack(|a.data|);
    Sections(s, h, head, a.data, rest);
  }

  lemma Sections(s: seq<Byte>, h: nat, a: seq<Byte>, b: seq<Byte>, c: seq<Byte>)
    requires h <= |s| && s[h..] == a + b + c
    ensures h + |a| + |b| <= |s| && s[h + |a|..h + |a| + |b|] == b && s[h + |a| + |b|..] == c
  {
    assert s[h + |a|..h + |a| + |b|] == s[h..][|a|..|a| + |b|];
    assert s[h + |a| + |b|..] == s[h..][|a| + |b|..];
  }

  lemma {:induction false} RecordsReadBack(s: seq<Byte>, i: nat, answers: seq<Answer>, rest: seq<Byte>)
    requires AllValid(answers) && forall k :: 0 <= k < |answers| ==> Plain(answers[k].name)
    requires i <= |s| && s[i..] == AnswerBytes(answers) + rest
    ensures Records(s, i, |answers|) == FoundIn(answers)
    decreases |answers|
  {
    hide NameBytes, RecordHead, RecordAt, Plain, AnswerBytes, SkipName, Records;
    if answers == [] {
      ZeroRecords(s, i);
    } else {
      AnswerBytesUnfold(answers);
      var a, more := answers[0], AnswerBytes(answers[1..]);
      Associate(NameBytes(a.name) + RecordHead(a) + a.data, more, rest);
      RecordReadsBack(s, i, a, more + rest);
      var next := i + |NameBytes(a.name)| + 10 + |a.data|;
      FirstRecord(s, i, |answers|, Found(a.rtype, a.ttl, Some(a.data)), next);
      RecordsReadBack(s, next, answers[1..], rest);
    }
  }

  lemma AnswerBytesUnfold(answers: seq<Answer>)
    requires AllValid(answers)
    requires answers != []
    ensures AllValid(answers[1..])
    ensures AnswerBytes(answers)
         == NameBytes(answers[0].name) + RecordHead(answers[0]) + answers[0].data + AnswerBytes(answers[1..])
  {
    hide NameBytes, RecordHead;
  }

  lemma ZeroRecords(s: seq<Byte>, i: nat)
    ensures Records(s, i, 0) == []
  {}

  lemma FirstRecord(s: seq<Byte>, i: nat, count: nat, f: Found, next: nat)
    requires count > 0 && RecordAt(s, i) == Some((f, next))
    ensures Records(s, i, count) == [f] + Records(s, next, count - 1)
  {
    hide RecordAt;
  }

  lemma {:induction false} FoundAddresses(answers: seq<Answer>, q: QType, low: nat)
    ensures Addresses(FoundIn(answers), q) == AddressesOf(answers, q)
    ensures LowestTtl(FoundIn(answers), q, low) == LowestOf(answers, q, low)
    decreases |answers|
  {
    if answers != [] {
      assert FoundIn(answers)[1..] == FoundIn(answers[1..]);
      FoundAddresses(answers[1..], q, if answers[0].rtype == q.Code() then Min(low, answers[0].ttl) else low);
    }
  }

  /**
   Every response whose answer names are plain is read back: the addresses of the asked type in order,
   and their lowest lifetime. What follows the answers does not matter.
   */
  /** Of other types, however many and of whatever lifetime, nothing is reported. */
  lemma {:induction false} OtherTypesReportNothing(answers: seq<Answer>, q: QType)
    requires forall a :: a in answers ==> a.rtype != if q == A then 1 else 28
    ensures AddressesOf(answers, q) == [] && Reported(LowestOf(answers, q, TTL_UNKNOWN)) == 0
  {
    if answers != [] {
      assert answers[0] in answers;
      OtherTypesReportNothing(answers[1..], q);
    }
  }

  lemma ResponseReadsBack(start: seq<Byte>, middle: seq<Byte>, question: seq<seq<Byte>>, asked: seq<Byte>,
                          answers: seq<Answer>, rest: seq<Byte>, q: QType)
    requires |start| == 6 && |middle| == 4 && |asked| == 4 && AllValid(answers) && |answers| < 0x1_0000
    requires forall k :: 0 <= k < |question| ==> Sized(question[k])
    requires forall k :: 0 <= k < |answers| ==> Plain(answers[k].name)
    ensures ParseResponse(Response(start, middle, question, asked, answers) + rest, q)
         == Some((AddressesOf(answers, q), Reported(LowestOf(answers, q, TTL_UNKNOWN))))
  {
    hide AnswerBytes, Plain, ValidAnswer, LabelBytes, Sized, Word, U16;
    hide Records, FoundIn, Addresses, LowestTtl, AddressesOf, LowestOf;
    var s := Response(start, middle, question, asked, answers) + rest;
    var name, tail := LabelBytes(question), AnswerBytes(answers) + rest;
    var head := start + Word(|answers|) + middle;
    HeaderAndQuestion(head, name, asked, AnswerBytes(answers), rest);
    Header(s, start, |answers|, middle, name + ([0] + asked + tail));
    SkipsLabels(s, 12, question, [0] + asked + tail);
    var end := 12 + |name|;
    Ending(s, end, [0] + asked, tail);
    LandsPast(s, end);
    RecordsReadBack(s, end + 5, answers, rest);
    FoundAddresses(answers, q, TTL_UNKNOWN);
  }

  lemma Header(s: seq<Byte>, start: seq<Byte>, count: nat, middle: seq<Byte>, body: seq<Byte>)
    requires |start| == 6 && |middle| == 4 && count < 0x1_0000 && s == start + Word(count) + middle + body
    ensures |s| >= 12 && U16(s[6], s[7]) == count && s[12..] == body
  {
    assert s[6] == Word(count)[0] && s[7] == Word(count)[1];
    WordReadsBack(count);
  }

  lemma HeaderAndQuestion(head: seq<Byte>, name: seq<Byte>, asked: seq<Byte>, answers: seq<Byte>, rest: seq<Byte>)
    ensures head + (name + [0] + asked) + answers + rest == head + (name + ([0] + asked + (answers + rest)))
  {}

  /** The lowest lifetime: below every one of the asked type, and one of them unless all are unknown. */
  lemma {:induction false} LowestOfIsLowest(answers: seq<Answer>, q: QType, low: nat)
    ensures LowestOf(answers, q, low) <= low
    ensures forall k :: 0 <= k < |answers| && answers[k].rtype == q.Code() ==> LowestOf(answers, q, low) <= answers[k].ttl
    ensures LowestOf(answers, q, low) == low
         || exists k :: 0 <= k < |answers| && answers[k].rtype == q.Code() && answers[k].ttl == LowestOf(answers, q, low)
    decreases |answers|
  {
    if answers != [] {
      var low' := if answers[0].rtype == q.Code() then Min(low, answers[0].ttl) else low;
      LowestOfIsLowest(answers[1..], q, low');
      assert answers == [answers[0]] + answers[1..];
      assert forall k :: 0 < k < |answers| ==> answers[k] == answers[1..][k - 1];
      if LowestOf(answers, q, low) != low && LowestOf(answers, q, low) != low' {
        var k :| 0 <= k < |answers[1..]| && answers[1..][k].rtype == q.Code() && answers[1..][k].ttl == LowestOf(answers, q, low);
        assert answers[k + 1] == answers[1..][k];
      }
    }
  }

  /** An address whose record name is a label and a pointer is lost. */
  lemma LabelsBeforePointerAreLost()
    ensures var name := Name([[119, 119, 119]], Some(12));
            var answers := [Answer(name, 1, 1, 300, [1, 2, 3, 4])];
            && AllValid(answers) && !Plain(name) && AddressesOf(answers, A) == [[1, 2, 3, 4]]
            && ParseResponse(Response([0, 1, 129, 128, 0, 1], [0, 0, 0, 0], [[97]], [0, 1, 0, 1], answers), A) == Some(([], 0))
  {
    LostAsBytes();
    LostIsNotFound();
    hide Response, ParseResponse;
    assert [LOST_ANSWER][1..] == [];
  }

  const LOST: seq<Byte> := [0, 1, 129, 128, 0, 1, 0, 1, 0, 0, 0, 0, 1, 97, 0, 0, 1, 0, 1]
                           + [3, 119, 119, 119, 0xC0, 12, 0, 1, 0, 1, 0, 0, 1, 44, 0, 4, 1, 2, 3, 4]

  const LOST_ANSWER := Answer(Name([[119, 119, 119]], Some(12)), 1, 1, 300, [1, 2, 3, 4])

  lemma LostAsBytes()
    ensures AllValid([LOST_ANSWER]) && Response([0, 1, 129, 128, 0, 1], [0, 0, 0, 0], [[97]], [0, 1, 0, 1], [LOST_ANSWER]) == LOST
  {
    LostAnswerBytes();
    hide AnswerBytes, LabelBytes;
    assert LabelBytes([[97]]) == [1, 97] by { OneLabelBytes([97]); }
    assert Word(1) == [0, 1];
  }

  lemma OneLabelBytes(part: seq<Byte>)
    requires |part| < 256
    ensures LabelBytes([part]) == [|part|] + part
  {
    assert [part][1..] == [];
  }

  lemma LostAnswerBytes()
    ensures AllValid([LOST_ANSWER])
    ensures AnswerBytes([LOST_ANSWER]) == [3, 119, 119, 119, 0xC0, 12, 0, 1, 0, 1, 0, 0, 1, 44, 0, 4, 1, 2, 3, 4]
  {
    LostNameAndHead();
    hide NameBytes, RecordHead;
    assert [LOST_ANSWER][1..] == [];
  }

  lemma LostNameAndHead()
    ensures ValidAnswer(LOST_ANSWER)
    ensures NameBytes(LOST_ANSWER.name) == [3, 119, 119, 119, 0xC0, 12]
    ensures RecordHead(LOST_ANSWER) == [0, 1, 0, 1, 0, 0, 1, 44, 0, 4]
  {
    OneLabelBytes([119, 119, 119]);
    hide LabelBytes;
  }

  /** The label before the pointer is taken for a name that ends far behind the message. */
  lemma LostIsNotFound()
    ensures ParseResponse(LOST, A) == Some(([], 0))
  {
    var s := LOST;
    assert s[12] == 1 && s[14] == 0 && SkipLabels(s, 12) == 14;
    assert s[19] == 3 && s[23] == 0xC0 && |s| < 12 + 50;
    assert SkipLabels(s, 23) == 23 + 193;
    assert SkipLabels(s, 19) == 23 + 193;
    hide SkipLabels;
    assert RecordAt(s, 19) == None;
    hide RecordAt;
    assert Records(s, 19, 1) == [];
    assert U16(s[6], s[7]) == 1;
  }
}
