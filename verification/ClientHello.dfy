/** The server name of a peeked TLS ClientHello (RFC 8446 section 4.1.2, RFC 6066 section 3). */
module ClientHello {
  import opened Sequences
  import opened Text
  import opened Numbers
  import opened Bytes

  const CLIENT_HELLO_MAX := 16 * 1024

  // ---------------------------------------------------------------- reading

  function U24(a: Byte, b: Byte, c: Byte): nat {
    0x1_0000 * a + 256 * b + c
  }

  /** The ClientHello body behind the record and handshake headers. The record's own length is not looked at. */
  function Body(s: seq<Byte>): Option<seq<Byte>> {
    if |s| < 5 || s[0] != 0x16 || s[1] != 0x03 then None
    else if |s| < 9 || s[5] != 0x01 then None
    else
      var end := 9 + U24(s[6], s[7], s[8]);
      if end > |s| then None else Some(s[9..end])
  }

  /** The extension block behind version, random, session id, cipher suites and compression methods. */
  function ExtensionBlock(ch: seq<Byte>): Option<seq<Byte>> {
    if |ch| <= 34 then None
    else
      var suites: nat := 35 + ch[34] as int;
      if suites + 2 > |ch| then None
      else
        var methods: nat := suites + 2 + U16(ch[suites], ch[suites + 1]);
        if methods >= |ch| then None
        else
          var exts: nat := methods + 1 + ch[methods];
          if exts + 2 > |ch| then None
          else
            var end := exts + 2 + U16(ch[exts], ch[exts + 1]);
            if end > |ch| then None else Some(ch[exts + 2..end])
  }

  /** The first host name of a server_name extension. */
  function NameIn(ext: seq<Byte>, utf8: seq<Byte> -> bool): Option<seq<Byte>> {
    if |ext| < 5 || ext[2] != 0 then None
    else
      var end := 5 + U16(ext[3], ext[4]);
      if end > |ext| || end == 5 || !utf8(ext[5..end]) then None else Some(ext[5..end])
  }

  function FindName(exts: seq<Byte>, j: nat, utf8: seq<Byte> -> bool): Option<seq<Byte>>
    decreases |exts| - j
  {
    if j + 4 > |exts| then None
    else
      var end := j + 4 + U16(exts[j + 2], exts[j + 3]);
      if end > |exts| then None
      else if U16(exts[j], exts[j + 1]) == 0 then NameIn(exts[j + 4..end], utf8)
      else FindName(exts, end, utf8)
  }

  function ServerName(s: seq<Byte>, utf8: seq<Byte> -> bool): Option<seq<Byte>> {
    if Body(s) == None || ExtensionBlock(Body(s).value) == None then None
    else FindName(ExtensionBlock(Body(s).value).value, 0, utf8)
  }

  /** The bounds-checked reader, with its cursors. */
  method SniFromClientHello(s: seq<Byte>, utf8: seq<Byte> -> bool) returns (name: Option<seq<Byte>>)
    ensures name == ServerName(s, utf8)
  {
    hide U16, U24, FindName, NameIn;
    if |s| < 5 || s[0] != 0x16 || s[1] != 0x03 {
      return None;
    }
    if |s| <= 5 || s[5] != 0x01 {
      return None;
    }
    if |s| < 9 || 9 + U24(s[6], s[7], s[8]) > |s| {
      return None;
    }
    var ch := s[9..9 + U24(s[6], s[7], s[8])];
    var exts := Block(ch);
    if exts == None {
      return None;
    }
    name := ScanExtensions(exts.value, utf8);
  }

  method Block(ch: seq<Byte>) returns (exts: Option<seq<Byte>>)
    ensures exts == ExtensionBlock(ch)
  {
    hide U16;
    var i: nat := 2 + 32;
    if i >= |ch| {
      return None;
    }
    i := i + 1 + ch[i];
    if i + 1 >= |ch| {
      return None;
    }
    i := i + 2 + U16(ch[i], ch[i + 1]);
    if i >= |ch| {
      return None;
    }
    i := i + 1 + ch[i];
    if i + 1 >= |ch| {
      return None;
    }
    var total := U16(ch[i], ch[i + 1]);
    i := i + 2;
    exts := if i + total > |ch| then None else Some(ch[i..i + total]);
  }

  method HostName(ext: seq<Byte>, utf8: seq<Byte> -> bool) returns (name: Option<seq<Byte>>)
    ensures name == NameIn(ext, utf8)
  {
    if |ext| <= 2 || ext[2] != 0 {
      return None;
    }
    if |ext| <= 4 || 5 + U16(ext[3], ext[4]) > |ext| {
      return None;
    }
    var text := ext[5..5 + U16(ext[3], ext[4])];
    if !utf8(text) {
      return None;
    }
    name := if text == [] then None else Some(text);
  }

  method ScanExtensions(exts: seq<Byte>, utf8: seq<Byte> -> bool) returns (name: Option<seq<Byte>>)
    ensures name == FindName(exts, 0, utf8)
  {
    hide U16, NameIn;
    var j: nat := 0;
    while j + 4 <= |exts|
      invariant FindName(exts, j, utf8) == FindName(exts, 0, utf8)
      decreases |exts| - j
    {
      var kind, len := U16(exts[j], exts[j + 1]), U16(exts[j + 2], exts[j + 3]);
      if j + 4 + len > |exts| {
        return None;
      }
      var ext := exts[j + 4..j + 4 + len];
      if kind == 0 {
        name := HostName(ext, utf8);
        return;
      }
      j := j + 4 + len;
    }
    name := None;
  }

  // ---------------------------------------------------------------- writing

  datatype Extension = Extension(kind: nat, data: seq<Byte>)

  datatype Hello = Hello(
    version: seq<Byte>, random: seq<Byte>, session: seq<Byte>, suites: seq<Byte>, methods: seq<Byte>,
    extensions: seq<Extension>)

  predicate ValidExtensions(exts: seq<Extension>) {
    forall k :: 0 <= k < |exts| ==> exts[k].kind < 0x1_0000 && |exts[k].data| < 0x1_0000
  }

  function ExtensionBytes(exts: seq<Extension>): seq<Byte>
    requires ValidExtensions(exts)
  {
    if exts == [] then []
    else Word(exts[0].kind) + Word(|exts[0].data|) + exts[0].data + ExtensionBytes(exts[1..])
  }

  predicate ValidHello(h: Hello) {
    && |h.version| == 2 && |h.random| == 32 && |h.session| < 256 && |h.suites| < 0x1_0000 && |h.methods| < 256
    && ValidExtensions(h.extensions) && |ExtensionBytes(h.extensions)| < 0x1_0000
  }

  function HelloBytes(h: Hello): seq<Byte>
    requires ValidHello(h)
  {
    (h.version + h.random) + ([|h.session|] + h.session) + (Word(|h.suites|) + h.suites)
    + ([|h.methods|] + h.methods) + (Word(|ExtensionBytes(h.extensions)|) + ExtensionBytes(h.extensions))
  }

  function Three(n: nat): (r: seq<Byte>)
    requires n < 0x100_0000
    ensures |r| == 3
  {
    [n / 0x1_0000, n / 256 % 256, n % 256]
  }

  function Message(h: Hello): seq<Byte>
    requires ValidHello(h) && |HelloBytes(h)| < 0x100_0000
  {
    [0x01] + Three(|HelloBytes(h)|) + HelloBytes(h)
  }

  /** A handshake message behind a record header that claims `length` bytes. */
  function InRecord(minor: Byte, length: nat, message: seq<Byte>): seq<Byte>
    requires length < 0x1_0000
  {
    [0x16, 0x03, minor] + Word(length) + message
  }

  predicate OneRecord(h: Hello) {
    ValidHello(h) && 5 + 4 + |HelloBytes(h)| <= 16_384
  }

  /** A ClientHello in one record. */
  function Record(minor: Byte, h: Hello): seq<Byte>
    requires OneRecord(h)
  {
    InRecord(minor, |Message(h)|, Message(h))
  }

  /** A server_name extension whose first entry is a host name. */
  function NameList(listLength: nat, name: seq<Byte>, more: seq<Byte>): seq<Byte>
    requires listLength < 0x1_0000 && |name| < 0x1_0000
  {
    Word(listLength) + [0] + Word(|name|) + name + more
  }

  /** What the first server_name extension says, if there is one. */
  function FirstName(exts: seq<Extension>, utf8: seq<Byte> -> bool): Option<seq<Byte>> {
    if exts == [] then None
    else if exts[0].kind == 0 then NameIn(exts[0].data, utf8)
    else FirstName(exts[1..], utf8)
  }

  lemma NameReadsBack(listLength: nat, name: seq<Byte>, more: seq<Byte>, utf8: seq<Byte> -> bool)
    requires listLength < 0x1_0000 && 0 < |name| < 0x1_0000 && utf8(name)
    ensures NameIn(NameList(listLength, name, more), utf8) == Some(name)
  {
    var ext := NameList(listLength, name, more);
    assert ext[3] == Word(|name|)[0] && ext[4] == Word(|name|)[1];
    WordReadsBack(|name|);
    assert ext[5..5 + |name|] == name;
  }

  /** An entry of another type, an empty one and one that is not text give no name. */
  lemma OtherEntriesNameNothing(listLength: nat, kind: Byte, name: seq<Byte>, more: seq<Byte>, utf8: seq<Byte> -> bool)
    requires listLength < 0x1_0000 && |name| < 0x1_0000
    ensures kind != 0 ==> NameIn(Word(listLength) + [kind] + Word(|name|) + name + more, utf8) == None
    ensures name == [] || !utf8(name) ==> NameIn(Word(listLength) + [0] + Word(|name|) + name + more, utf8) == None
  {
    var ext := Word(listLength) + [0] + Word(|name|) + name + more;
    assert ext[3] == Word(|name|)[0] && ext[4] == Word(|name|)[1];
    WordReadsBack(|name|);
    assert ext[5..5 + |name|] == name;
  }

  lemma Field(s: seq<Byte>, i: nat, a: seq<Byte>, b: seq<Byte>)
    requires i <= |s| && s[i..] == a + b
    ensures i + |a| <= |s| && s[i..i + |a|] == a && s[i + |a|..] == b
    ensures forall k :: 0 <= k < |a| ==> s[i + k] == a[k]
  {
    assert s[i..i + |a|] == s[i..][..|a|];
    assert s[i + |a|..] == s[i..][|a|..];
    forall k | 0 <= k < |a| ensures s[i + k] == a[k] { assert s[i + k] == s[i..][k]; }
  }

  lemma PastField(s: seq<Byte>, i: nat, a: seq<Byte>, b: seq<Byte>)
    requires i <= |s| && s[i..] == a + b
    ensures i + |a| <= |s| && s[i + |a|..] == b
  {
    assert s[i + |a|..] == s[i..][|a|..];
  }

  lemma {:induction false} ExtensionsReadBack(s: seq<Byte>, j: nat, exts: seq<Extension>, utf8: seq<Byte> -> bool)
    requires ValidExtensions(exts) && j <= |s| && s[j..] == ExtensionBytes(exts)
    ensures FindName(s, j, utf8) == FirstName(exts, utf8)
    decreases |exts|
  {
    hide NameIn, Word, U16, FindName, ExtensionBytes;
    FirstExtension(exts);
    if exts == [] {
      NothingFound(s, j, utf8);
    } else {
      var e, rest := exts[0], ExtensionBytes(exts[1..]);
      Associate(Word(e.kind), Word(|e.data|), e.data + rest);
      Associate(Word(e.kind) + Word(|e.data|), e.data, rest);
      Field(s, j, Word(e.kind), Word(|e.data|) + (e.data + rest));
      Field(s, j + 2, Word(|e.data|), e.data + rest);
      Field(s, j + 4, e.data, rest);
      KindAndLength(e, s[j], s[j + 1], s[j + 2], s[j + 3]);
      FindStep(s, j, e.kind, |e.data|, utf8);
      ExtensionsReadBack(s, j + 4 + |e.data|, exts[1..], utf8);
    }
  }

  lemma FirstExtension(exts: seq<Extension>)
    requires ValidExtensions(exts)
    ensures exts == [] ==> ExtensionBytes(exts) == []
    ensures exts != [] ==> ValidExtensions(exts[1..])
    ensures exts != [] ==>
              ExtensionBytes(exts)
                == Word(exts[0].kind) + Word(|exts[0].data|) + exts[0].data + ExtensionBytes(exts[1..])
  {
    hide Word;
  }

  lemma NothingFound(s: seq<Byte>, j: nat, utf8: seq<Byte> -> bool)
    requires j <= |s| && s[j..] == []
    ensures FindName(s, j, utf8) == None
  {}

  lemma FindStep(s: seq<Byte>, j: nat, kind: nat, len: nat, utf8: seq<Byte> -> bool)
    requires j + 4 + len <= |s| && U16(s[j], s[j + 1]) == kind && U16(s[j + 2], s[j + 3]) == len
    ensures FindName(s, j, utf8) == if kind == 0 then NameIn(s[j + 4..j + 4 + len], utf8) else FindName(s, j + 4 + len, utf8)
  {}

  lemma KindAndLength(e: Extension, a: Byte, b: Byte, c: Byte, d: Byte)
    requires e.kind < 0x1_0000 && |e.data| < 0x1_0000
    requires [a, b] == Word(e.kind) && [c, d] == Word(|e.data|)
    ensures U16(a, b) == e.kind && U16(c, d) == |e.data|
  {
    WordReadsBack(e.kind);
    WordReadsBack(|e.data|);
    assert [a, b][0] == a && [a, b][1] == b && [c, d][0] == c && [c, d][1] == d;
  }

  /** A length-prefixed field: where it ends, and what follows. */
  lemma Short(s: seq<Byte>, i: nat, field: seq<Byte>, rest: seq<Byte>)
    requires i <= |s| && |field| < 256 && s[i..] == [|field|] + field + rest
    ensures i < |s| && s[i] == |field| && i + 1 + |field| <= |s| && s[i + 1 + |field|..] == rest
  {
    Field(s, i, [|field|] + field, rest);
    assert s[i] == ([|field|] + field)[0];
  }

  lemma Long(s: seq<Byte>, i: nat, field: seq<Byte>, rest: seq<Byte>)
    requires i <= |s| && |field| < 0x1_0000 && s[i..] == Word(|field|) + field + rest
    ensures i + 2 + |field| <= |s| && U16(s[i], s[i + 1]) == |field|
    ensures s[i + 2..i + 2 + |field|] == field && s[i + 2 + |field|..] == rest
  {
    assert Word(|field|) + field + rest == Word(|field|) + (field + rest);
    Field(s, i, Word(|field|), field + rest);
    assert s[i] == Word(|field|)[0] && s[i + 1] == Word(|field|)[1];
    WordReadsBack(|field|);
    Field(s, i + 2, field, rest);
  }

  lemma BlockReadsBack(h: Hello)
    requires ValidHello(h)
    ensures ExtensionBlock(HelloBytes(h)) == Some(ExtensionBytes(h.extensions))
  {
    hide Word, ExtensionBytes, ExtensionBlock, U16;
    var ch, exts := HelloBytes(h), ExtensionBytes(h.extensions);
    var a, b, c := h.version + h.random, [|h.session|] + h.session, Word(|h.suites|) + h.suites;
    var d, e := [|h.methods|] + h.methods, Word(|exts|) + exts;
    FiveParts(a, b, c, d, e);
    CursorPath(ch, a, h.session, h.suites, h.methods, exts);
  }

  /** The cursor over the fields in front of the extensions. */
  lemma CursorPath(ch: seq<Byte>, fixed: seq<Byte>, session: seq<Byte>, suites: seq<Byte>, methods: seq<Byte>, exts: seq<Byte>)
    requires |fixed| == 34 && |session| < 256 && |suites| < 0x1_0000 && |methods| < 256 && |exts| < 0x1_0000
    requires ch == fixed + (([|session|] + session) + ((Word(|suites|) + suites) + (([|methods|] + methods) + ((Word(|exts|) + exts) + []))))
    ensures ExtensionBlock(ch) == Some(exts)
  {
    hide Word, ExtensionBlock, U16;
    var e := (Word(|exts|) + exts) + [];
    var d := ([|methods|] + methods) + e;
    var c := (Word(|suites|) + suites) + d;
    assert ch[0..] == ch;
    PastField(ch, 0, fixed, ([|session|] + session) + c);
    Short(ch, 34, session, c);
    var i := 35 + |session|;
    Long(ch, i, suites, d);
    var j := i + 2 + |suites|;
    CursorEnd(ch, i, j, methods, exts);
  }

  lemma CursorEnd(ch: seq<Byte>, i: nat, j: nat, methods: seq<Byte>, exts: seq<Byte>)
    requires |ch| > 34 && i == 35 + ch[34] as int && i + 2 <= |ch| && j == i + 2 + U16(ch[i], ch[i + 1]) && j <= |ch|
    requires |methods| < 256 && |exts| < 0x1_0000
    requires ch[j..] == ([|methods|] + methods) + ((Word(|exts|) + exts) + [])
    ensures ExtensionBlock(ch) == Some(exts)
  {
    hide Word, ExtensionBlock, U16;
    Short(ch, j, methods, (Word(|exts|) + exts) + []);
    Long(ch, j + 1 + |methods|, exts, []);
    BlockIs(ch, i, j, j + 1 + |methods|, exts);
  }

  lemma BlockIs(ch: seq<Byte>, suites: nat, methods: nat, exts: nat, block: seq<Byte>)
    requires |ch| > 34 && suites == 35 + ch[34] as int && suites + 2 <= |ch|
    requires methods == suites + 2 + U16(ch[suites], ch[suites + 1]) && methods < |ch|
    requires exts == methods + 1 + ch[methods] && exts + 2 + |block| <= |ch| && |block| == U16(ch[exts], ch[exts + 1])
    requires ch[exts + 2..exts + 2 + |block|] == block
    ensures ExtensionBlock(ch) == Some(block)
  {}

  lemma FiveParts(a: seq<Byte>, b: seq<Byte>, c: seq<Byte>, d: seq<Byte>, e: seq<Byte>)
    ensures a + b + c + d + e == a + (b + (c + (d + (e + []))))
  {
    assert e + [] == e;
  }

  lemma ThreeReadsBack(n: nat)
    requires n < 0x100_0000
    ensures U24(Three(n)[0], Three(n)[1], Three(n)[2]) == n
  {
    assert n / 256 == 256 * (n / 0x1_0000) + n / 256 % 256;
  }

  /** The body of a message behind any record header, with anything after it; of no strict prefix. */
  lemma BodyReadsBack(minor: Byte, length: nat, h: Hello, rest: seq<Byte>)
    requires length < 0x1_0000 && ValidHello(h) && |HelloBytes(h)| < 0x100_0000
    ensures Body(InRecord(minor, length, Message(h)) + rest) == Some(HelloBytes(h))
    ensures forall k :: 0 <= k < 5 + |Message(h)| ==> Body((InRecord(minor, length, Message(h)) + rest)[..k]) == None
  {
    hide HelloBytes, ValidHello, Word;
    var ch := HelloBytes(h);
    var s := InRecord(minor, length, Message(h)) + rest;
    var three := Three(|ch|);
    ThreeReadsBack(|ch|);
    assert |s| == 9 + |ch| + |rest|;
    assert s[0] == 0x16 && s[1] == 0x03 && s[5] == 0x01;
    assert s[6] == three[0] && s[7] == three[1] && s[8] == three[2];
    hide Three;
    assert s[9..9 + |ch|] == ch;
    forall k | 0 <= k < 5 + |Message(h)| ensures Body(s[..k]) == None {
      var t := s[..k];
      assert forall i :: 0 <= i < k ==> t[i] == s[i];
    }
  }

  /** The reader on a message behind any record header; it does not look at the record's length. */
  lemma MessageReadsBack(minor: Byte, length: nat, h: Hello, rest: seq<Byte>, utf8: seq<Byte> -> bool)
    requires length < 0x1_0000 && ValidHello(h) && |HelloBytes(h)| < 0x100_0000
    ensures ServerName(InRecord(minor, length, Message(h)) + rest, utf8) == FirstName(h.extensions, utf8)
    ensures forall k :: 0 <= k < 5 + |Message(h)|
              ==> ServerName((InRecord(minor, length, Message(h)) + rest)[..k], utf8) == None
  {
    hide Body, HelloBytes, ExtensionBlock, FindName, FirstName, ExtensionBytes, Word, Message, InRecord;
    BodyReadsBack(minor, length, h, rest);
    BlockReadsBack(h);
    var exts := ExtensionBytes(h.extensions);
    assert exts[0..] == exts;
    ExtensionsReadBack(exts, 0, h.extensions, utf8);
  }

  /**
   Every ClientHello reads back: the name in its first server_name extension, whatever the other
   extensions and whatever follows; every strict prefix of it gives nothing.
   */
  lemma HelloReadsBack(minor: Byte, h: Hello, rest: seq<Byte>, utf8: seq<Byte> -> bool)
    requires OneRecord(h)
    ensures ServerName(Record(minor, h) + rest, utf8) == FirstName(h.extensions, utf8)
    ensures forall k :: 0 <= k < |Record(minor, h)| ==> ServerName((Record(minor, h) + rest)[..k], utf8) == None
  {
    hide ServerName, FirstName;
    MessageReadsBack(minor, |Message(h)|, h, rest, utf8);
  }

  // ---------------------------------------------------------------- peeking

  /** What one peek decides: nothing yet, or the final answer. */
  datatype Peek = NotYet | Decided(name: Option<seq<Byte>>)

  function PeekAt(seen: seq<Byte>, utf8: seq<Byte> -> bool): Peek {
    if seen == [] then Decided(None)
    else if |seen| < 5 then NotYet
    else if seen[0] != 0x16 || seen[1] != 0x03 then Decided(None)
    else
      var want := 5 + U16(seen[3], seen[4]);
      if want > CLIENT_HELLO_MAX then Decided(None)
      else if |seen| >= want then Decided(ServerName(seen, utf8))
      else NotYet
  }

  /** Every poll sees at least `low` and at most `high` bytes queued. */
  predicate Between(low: nat, queued: seq<nat>, high: nat) {
    forall k :: 0 <= k < |queued| ==> low <= queued[k] <= high
  }

  /** What the peek buffer holds when `n` bytes of the stream are queued. */
  function Seen(stream: seq<Byte>, n: nat): seq<Byte>
    requires n <= |stream|
  {
    stream[..Min(n, CLIENT_HELLO_MAX)]
  }

  function Peeks(stream: seq<Byte>, queued: seq<nat>, utf8: seq<Byte> -> bool): Peek
    requires Between(0, queued, |stream|)
  {
    if queued == [] then NotYet
    else
      var now := PeekAt(Seen(stream, queued[0]), utf8);
      if now.Decided? then now else Peeks(stream, queued[1..], utf8)
  }

  /** The polling loop, for any number of bytes queued at each poll; NotYet means it still polls. */
  method PeekClientSni(stream: seq<Byte>, queued: seq<nat>, utf8: seq<Byte> -> bool) returns (r: Peek)
    requires Between(0, queued, |stream|)
    ensures r == Peeks(stream, queued, utf8)
  {
    hide U16, ServerName;
    var want := 5;
    for i := 0 to |queued|
      invariant want >= 5
      invariant Peeks(stream, queued[i..], utf8) == Peeks(stream, queued, utf8)
    {
      assert queued[i..][0] == queued[i] && queued[i..][1..] == queued[i + 1..];
      var buf := Seen(stream, queued[i]);
      if |buf| == 0 {
        return Decided(None);
      }
      if |buf| >= 5 {
        if buf[0] != 0x16 || buf[1] != 0x03 {
          return Decided(None);
        }
        want := 5 + U16(buf[3], buf[4]);
        if want > CLIENT_HELLO_MAX {
          return Decided(None);
        }
      }
      if |buf| >= want {
        var name := SniFromClientHello(buf, utf8);
        return Decided(name);
      }
    }
    r := NotYet;
  }

  lemma RecordHeader(minor: Byte, length: nat, message: seq<Byte>, rest: seq<Byte>)
    requires length < 0x1_0000
    ensures var s := InRecord(minor, length, message) + rest;
            |s| >= 5 && s[0] == 0x16 && s[1] == 0x03 && U16(s[3], s[4]) == length
  {
    var s := InRecord(minor, length, message) + rest;
    assert s[3] == Word(length)[0] && s[4] == Word(length)[1];
    WordReadsBack(length);
  }

  /** Everything a peek can see of a message behind a record header that claims `length` bytes. */
  lemma PeekAtMessage(minor: Byte, length: nat, h: Hello, rest: seq<Byte>, n: nat, utf8: seq<Byte> -> bool)
    requires OneRecord(h) && length < 0x1_0000 && 0 < n <= |InRecord(minor, length, Message(h)) + rest|
    ensures PeekAt(Seen(InRecord(minor, length, Message(h)) + rest, n), utf8)
         == if n < 5 then NotYet
            else if 5 + length > CLIENT_HELLO_MAX then Decided(None)
            else if n < 5 + length then NotYet
            else if n < 5 + |Message(h)| then Decided(None)
            else Decided(FirstName(h.extensions, utf8))
  {
    hide ServerName, FirstName, Message, U16;
    var record := InRecord(minor, length, Message(h));
    var stream := record + rest;
    var size := Min(n, CLIENT_HELLO_MAX);
    var seen := stream[..size];
    assert Seen(stream, n) == seen;
    MessageSize(h);
    assert |record| == 5 + |Message(h)|;
    RecordHeader(minor, length, Message(h), rest);
    assert forall i :: 0 <= i < 5 && i < |seen| ==> seen[i] == stream[i];
    if size >= |record| {
      assert seen == record + stream[|record|..size];
      MessageReadsBack(minor, length, h, stream[|record|..size], utf8);
    } else {
      MessageReadsBack(minor, length, h, rest, utf8);
    }
  }

  /** A peek at a ClientHello decides exactly when all of it is there, and then always the same. */
  lemma PeekAtHello(minor: Byte, h: Hello, rest: seq<Byte>, n: nat, utf8: seq<Byte> -> bool)
    requires OneRecord(h) && 0 < n <= |Record(minor, h) + rest|
    ensures PeekAt(Seen(Record(minor, h) + rest, n), utf8)
         == if n < |Record(minor, h)| then NotYet else Decided(FirstName(h.extensions, utf8))
  {
    hide PeekAt, Seen, FirstName, Message;
    MessageSize(h);
    PeekAtMessage(minor, |Message(h)|, h, rest, n, utf8);
  }

  lemma MessageSize(h: Hello)
    requires OneRecord(h)
    ensures ValidHello(h) && |HelloBytes(h)| < 0x100_0000
    ensures |Message(h)| == 4 + |HelloBytes(h)| && 5 + |Message(h)| <= CLIENT_HELLO_MAX
  {}

  /** Every segmentation of a one-record ClientHello gives the same name, and none is given before all of it came. */
  lemma {:induction false} AnySegmentationGivesTheName(minor: Byte, h: Hello, rest: seq<Byte>, queued: seq<nat>,
                                                       utf8: seq<Byte> -> bool)
    requires OneRecord(h)
    requires Between(1, queued, |Record(minor, h) + rest|)
    ensures Peeks(Record(minor, h) + rest, queued, utf8)
         == if exists k :: 0 <= k < |queued| && queued[k] >= |Record(minor, h)| then Decided(FirstName(h.extensions, utf8))
            else NotYet
    decreases |queued|
  {
    hide PeekAt, FirstName, Record, OneRecord, Seen;
    if queued != [] {
      assert forall k :: 0 < k < |queued| ==> queued[k] == queued[1..][k - 1];
      PeekAtHello(minor, h, rest, queued[0], utf8);
      AnySegmentationGivesTheName(minor, h, rest, queued[1..], utf8);
    }
  }

  /** A partial ClientHello is never decided, even when the peer has closed: every later poll sees the same bytes. */
  lemma {:induction false} PartialHelloIsPolledForEver(minor: Byte, h: Hello, n: nat, queued: seq<nat>, utf8: seq<Byte> -> bool)
    requires OneRecord(h) && 0 < n < |Record(minor, h)|
    requires Between(1, queued, n)
    ensures Peeks(Record(minor, h)[..n], queued, utf8) == NotYet
    decreases |queued|
  {
    hide PeekAt, FirstName, Record, OneRecord;
    if queued != [] {
      var record := Record(minor, h);
      assert record + [] == record;
      PeekAtHello(minor, h, [], queued[0], utf8);
      assert Seen(record[..n], queued[0]) == Seen(record, queued[0]);
      PartialHelloIsPolledForEver(minor, h, n, queued[1..], utf8);
    }
  }

  /** Any two polls that decide, decide the same. */
  predicate OneAnswer(stream: seq<Byte>, utf8: seq<Byte> -> bool) {
    forall m: nat, n: nat | 0 < m <= |stream| && 0 < n <= |stream| ::
      var a, b := PeekAt(Seen(stream, m), utf8), PeekAt(Seen(stream, n), utf8);
      a == NotYet || b == NotYet || a == b
  }

  /** Then any two segmentations under which the loop ends give the same result. */
  lemma {:induction false} OneAnswerForAllSegmentations(stream: seq<Byte>, a: seq<nat>, b: seq<nat>, utf8: seq<Byte> -> bool)
    requires OneAnswer(stream, utf8) && Between(1, a, |stream|) && Between(1, b, |stream|)
    requires Peeks(stream, a, utf8).Decided? && Peeks(stream, b, utf8).Decided?
    ensures Peeks(stream, a, utf8) == Peeks(stream, b, utf8)
    decreases |a| + |b|
  {
    hide PeekAt, Seen;
    if PeekAt(Seen(stream, a[0]), utf8) == NotYet {
      OneAnswerForAllSegmentations(stream, a[1..], b, utf8);
    } else if PeekAt(Seen(stream, b[0]), utf8) == NotYet {
      OneAnswerForAllSegmentations(stream, a, b[1..], utf8);
    }
  }

  /**
   The record length decides when to read, the handshake length what to read. So the result is the same
   for every segmentation exactly when the record claims at least the whole message, or there is no name
   to be found.
   */
  lemma OneAnswerIffRecordHoldsMessage(minor: Byte, length: nat, h: Hello, rest: seq<Byte>, utf8: seq<Byte> -> bool)
    requires OneRecord(h) && length < 0x1_0000
    ensures OneAnswer(InRecord(minor, length, Message(h)) + rest, utf8)
       <==> length >= |Message(h)| || FirstName(h.extensions, utf8) == None
  {
    hide PeekAt, Seen, FirstName, Message;
    var stream := InRecord(minor, length, Message(h)) + rest;
    MessageSize(h);
    assert |stream| == 5 + |Message(h)| + |rest|;
    if length >= |Message(h)| || FirstName(h.extensions, utf8) == None {
      forall n: nat | 0 < n <= |stream| && PeekAt(Seen(stream, n), utf8).Decided?
        ensures PeekAt(Seen(stream, n), utf8)
             == Decided(if 5 + length > CLIENT_HELLO_MAX then None else FirstName(h.extensions, utf8))
      {
        PeekAtMessage(minor, length, h, rest, n, utf8);
      }
    } else {
      PeekAtMessage(minor, length, h, rest, 5 + length, utf8);
      PeekAtMessage(minor, length, h, rest, 5 + |Message(h)|, utf8);
    }
  }

  const EXAMPLE := Hello([3, 3], seq(32, _ => 0), [], [0x13, 1], [0], [Extension(0, NameList(4, [97], []))])

  /** A hello that names `a`, in a record that claims 40 of its 57 bytes: the name, or none, as bytes arrive. */
  lemma ShortRecordDependsOnTiming()
    ensures OneRecord(EXAMPLE) && |Message(EXAMPLE)| == 57
    ensures !OneAnswer(InRecord(1, 40, Message(EXAMPLE)) + [], _ => true)
  {
    var exts := EXAMPLE.extensions;
    ExampleSize();
    NameReadsBack(4, [97], [], _ => true);
    assert FirstName(exts, _ => true) == Some([97]);
    hide OneAnswer;
    OneAnswerIffRecordHoldsMessage(1, 40, EXAMPLE, [], _ => true);
  }

  lemma ExampleSize()
    ensures OneRecord(EXAMPLE) && |Message(EXAMPLE)| == 57
  {
    var e := Extension(0, NameList(4, [97], []));
    assert EXAMPLE.extensions == [e] && [e][1..] == [];
    assert |e.data| == 6 && |ExtensionBytes([e])| == 10;
    assert |HelloBytes(EXAMPLE)| == 53;
  }
}
