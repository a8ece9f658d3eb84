/** The chunked transfer coding: what a relay must consume, and what a conforming sender writes. */
module Chunked {
  import opened Sequences
  import opened Text
  import opened Numbers
  import opened Streams

  const CRLF := "\r\n"
  const SIZE_LINE_MAX := 4096
  const TRAILER_LINE_MAX := 8192

  /** A chunk-size line: hexadecimal digits, then anything behind a semicolon. */
  function ParseChunkSize(line: string): Option<nat> {
    var trimmed := Trim(line);
    ParseUint(Trim(trimmed[..Find(trimmed, ";")]), Sixteen, USIZE_MAX)
  }

  function After(len: nat, rest: Option<nat>): Option<nat> {
    if rest == None then None else Some(len + rest.value)
  }

  /** Length of the trailer section, up to and including its empty line. */
  function TrailerLen(s: string): (t: Option<nat>)
    ensures t.Some? ==> t.value <= |s|
    decreases |s|
  {
    match Delimited(s, CRLF, TRAILER_LINE_MAX)
    case None => None
    case Some(l) =>
      if s[..l] == CRLF then Some(l)
      else After(l, TrailerLen(s[l..]))
  }

  /** How many bytes a chunked body takes, and the entity it carries. */
  datatype Body = Body(len: nat, entity: string)

  /** The body behind `len` bytes that carry `entity`. */
  function Shift(len: nat, entity: string, rest: Option<Body>): Option<Body> {
    if rest == None then None else Some(Body(len + rest.value.len, entity + rest.value.entity))
  }

  /** The end of the body: the last size line and its trailer section carry nothing. */
  function Ending(len: nat, trailers: Option<nat>): Option<Body> {
    if trailers == None then None else Some(Body(len + trailers.value, ""))
  }

  /** What the next size line announces: nothing usable, the last chunk, or data behind the line. */
  datatype Piece = Malformed | Last(line: nat) | Data(line: nat, size: nat)

  /** `strict` readers insist on the CRLF behind the data; the relays do not look at it. */
  function NextPiece(s: string, strict: bool): (p: Piece)
    ensures p.Last? ==> 2 <= p.line <= |s|
    ensures p.Data? ==> 2 <= p.line && p.line + p.size + 2 <= |s|
  {
    match Delimited(s, CRLF, SIZE_LINE_MAX)
    case None => Malformed
    case Some(l) =>
      match ParseChunkSize(s[..l])
      case None => Malformed
      case Some(size) =>
        if size == 0 then Last(l)
        else if |s| < l + size + 2 || (strict && s[l + size..l + size + 2] != CRLF) then Malformed
        else Data(l, size)
  }

  function ParseChunked(s: string, strict: bool): (b: Option<Body>)
    ensures b.Some? ==> b.value.len <= |s|
    decreases |s|
  {
    match NextPiece(s, strict)
    case Malformed => None
    case Last(l) => Ending(l, TrailerLen(s[l..]))
    case Data(l, size) => Shift(l + size + 2, s[l..l + size], ParseChunked(s[l + size + 2..], strict))
  }

  /** The chunk data in what has been seen of a chunked body, the last chunk perhaps in part. */
  function Decodable(s: string): string
    decreases |s|
  {
    match Delimited(s, CRLF, SIZE_LINE_MAX)
    case None => ""
    case Some(l) =>
      match ParseChunkSize(s[..l])
      case None => ""
      case Some(size) => if size == 0 then "" else DataFrom(s[l..], size)
  }

  /** Data of a chunk of `size` bytes, and of the chunks behind it. */
  function DataFrom(s: string, size: nat): string
    decreases |s|, 0
  {
    if |s| < size + 2 then s[..Min(size, |s|)] else s[..size] + Decodable(s[size + 2..])
  }

  // ---------------------------------------------------------------- one step of a reader

  lemma TrailerNone(s: string)
    requires Delimited(s, CRLF, TRAILER_LINE_MAX) == None
    ensures TrailerLen(s) == None
  {}

  lemma TrailerStep(line: string, rest: string)
    requires Delimited(line + rest, CRLF, TRAILER_LINE_MAX) == Some(|line|)
    ensures TrailerLen(line + rest) == if line == CRLF then Some(|line|) else After(|line|, TrailerLen(rest))
  {
    assert (line + rest)[..|line|] == line && (line + rest)[|line|..] == rest;
  }

  lemma StepNoLine(s: string, strict: bool)
    requires Delimited(s, CRLF, SIZE_LINE_MAX) == None
    ensures ParseChunked(s, strict) == None
  {}

  lemma StepMalformed(line: string, rest: string, strict: bool)
    requires Delimited(line + rest, CRLF, SIZE_LINE_MAX) == Some(|line|) && ParseChunkSize(line) == None
    ensures ParseChunked(line + rest, strict) == None
  {
    hide ParseChunkSize, Delimited;
    assert (line + rest)[..|line|] == line;
  }

  lemma StepLast(line: string, rest: string, strict: bool)
    requires Delimited(line + rest, CRLF, SIZE_LINE_MAX) == Some(|line|) && ParseChunkSize(line) == Some(0)
    ensures ParseChunked(line + rest, strict)
         == Ending(|line|, TrailerLen(rest))
  {
    hide ParseChunkSize, Delimited, TrailerLen;
    assert (line + rest)[..|line|] == line && (line + rest)[|line|..] == rest;
  }

  lemma StepShort(line: string, rest: string, size: nat, strict: bool)
    requires Delimited(line + rest, CRLF, SIZE_LINE_MAX) == Some(|line|) && ParseChunkSize(line) == Some(size)
    requires 0 < size && |rest| < size + 2
    ensures ParseChunked(line + rest, strict) == None
  {
    hide ParseChunkSize, Delimited;
    assert (line + rest)[..|line|] == line;
  }

  lemma ShiftZero(b: Option<Body>)
    ensures Shift(0, "", b) == b
  {
    if b.Some? { assert "" + b.value.entity == b.value.entity; }
  }

  lemma ShiftSome(l: nat, e: string, l': nat, e': string)
    ensures Shift(l, e, Some(Body(l', e'))) == Some(Body(l + l', e + e'))
  {}

  lemma ShiftShift(l1: nat, e1: string, l2: nat, e2: string, b: Option<Body>)
    ensures Shift(l1, e1, Shift(l2, e2, b)) == Shift(l1 + l2, e1 + e2, b)
  {
    if b.Some? { assert e1 + (e2 + b.value.entity) == e1 + e2 + b.value.entity; }
  }

  lemma FourSlices(line: string, data: string, end: string, rest: string)
    requires |end| == 2
    ensures var s := line + (data + end + rest); var l, n := |line|, |data|;
            |s| >= l + n + 2 && s[..l] == line && s[l..l + n] == data
            && s[l + n..l + n + 2] == end && s[l + n + 2..] == rest
  {
    assert line + (data + end + rest) == line + data + end + rest;
  }

  lemma PieceData(line: string, data: string, end: string, rest: string, strict: bool)
    requires Delimited(line + (data + end + rest), CRLF, SIZE_LINE_MAX) == Some(|line|)
    requires ParseChunkSize(line) == Some(|data|) && data != "" && |end| == 2
    ensures NextPiece(line + (data + end + rest), strict)
         == if strict && end != CRLF then Malformed else Data(|line|, |data|)
  {
    hide ParseChunkSize, Delimited;
    FourSlices(line, data, end, rest);
  }

  lemma UnfoldMalformed(s: string, strict: bool)
    requires NextPiece(s, strict) == Malformed
    ensures ParseChunked(s, strict) == None
  {
    hide NextPiece, TrailerLen;
  }

  lemma UnfoldLast(s: string, strict: bool, l: nat)
    requires NextPiece(s, strict) == Last(l)
    ensures ParseChunked(s, strict) == Ending(l, TrailerLen(s[l..]))
  {
    hide NextPiece, TrailerLen;
  }

  lemma UnfoldData(s: string, strict: bool, l: nat, n: nat)
    requires NextPiece(s, strict) == Data(l, n)
    ensures ParseChunked(s, strict) == Shift(l + n + 2, s[l..l + n], ParseChunked(s[l + n + 2..], strict))
  {
    hide NextPiece, TrailerLen, Shift, Ending;
  }

  lemma StepData(line: string, data: string, end: string, rest: string, strict: bool)
    requires Delimited(line + (data + end + rest), CRLF, SIZE_LINE_MAX) == Some(|line|)
    requires ParseChunkSize(line) == Some(|data|) && data != "" && |end| == 2
    ensures ParseChunked(line + (data + end + rest), strict)
         == if strict && end != CRLF then None else Shift(|line| + |data| + 2, data, ParseChunked(rest, strict))
  {
    hide ParseChunkSize, Delimited, NextPiece, ParseChunked;
    var s := line + (data + end + rest);
    PieceData(line, data, end, rest, strict);
    FourSlices(line, data, end, rest);
    if strict && end != CRLF {
      UnfoldMalformed(s, strict);
    } else {
      UnfoldData(s, strict, |line|, |data|);
    }
  }

  // ---------------------------------------------------------------- a reader halfway through

  /** Everything a reader still has to find after `done` bytes that carried `data`. */
  ghost predicate HalfWay(all: string, done: string, data: string, rest: string, strict: bool) {
    all == done + rest && ParseChunked(all, strict) == Shift(|done|, data, ParseChunked(rest, strict))
  }

  lemma HalfWayStart(all: string, strict: bool)
    ensures HalfWay(all, "", "", all, strict)
  {
    hide ParseChunked;
    ShiftZero(ParseChunked(all, strict));
    assert "" + all == all;
  }

  lemma HalfWayNone(all: string, done: string, data: string, rest: string, strict: bool)
    requires HalfWay(all, done, data, rest, strict) && ParseChunked(rest, strict) == None
    ensures ParseChunked(all, strict) == None
  {
    hide ParseChunked;
  }

  /** One more chunk. */
  lemma HalfWayChunk(all: string, done: string, data: string, line: string, afterLine: string, size: nat, strict: bool)
    requires HalfWay(all, done, data, line + afterLine, strict)
    requires Delimited(line + afterLine, CRLF, SIZE_LINE_MAX) == Some(|line|) && ParseChunkSize(line) == Some(size)
    requires 0 < size && size + 2 <= |afterLine| && (strict ==> afterLine[size..size + 2] == CRLF)
    ensures HalfWay(all, done + line + afterLine[..size + 2], data + afterLine[..size], afterLine[size + 2..], strict)
  {
    hide Delimited, ParseChunkSize, ParseChunked, Shift;
    var chunk, end, rest := afterLine[..size], afterLine[size..size + 2], afterLine[size + 2..];
    assert afterLine == chunk + end + rest;
    StepData(line, chunk, end, rest, strict);
    ShiftShift(|done|, data, |line| + |chunk| + 2, chunk, ParseChunked(rest, strict));
    Moved(done, line, afterLine, size + 2);
  }

  lemma Moved(done: string, line: string, afterLine: string, n: nat)
    requires n <= |afterLine|
    ensures done + (line + afterLine) == done + line + afterLine[..n] + afterLine[n..]
    ensures |done + line + afterLine[..n]| == |done| + (|line| + n)
  {}

  /** A chunk whose data is not followed by CRLF, for a reader that insists on it. */
  lemma HalfWayBadEnd(all: string, done: string, data: string, line: string, afterLine: string, size: nat)
    requires HalfWay(all, done, data, line + afterLine, true)
    requires Delimited(line + afterLine, CRLF, SIZE_LINE_MAX) == Some(|line|) && ParseChunkSize(line) == Some(size)
    requires 0 < size && size + 2 <= |afterLine| && afterLine[size..size + 2] != CRLF
    ensures ParseChunked(all, true) == None
  {
    hide Delimited, ParseChunkSize, ParseChunked;
    var chunk, end, rest := afterLine[..size], afterLine[size..size + 2], afterLine[size + 2..];
    assert afterLine == chunk + end + rest;
    StepData(line, chunk, end, rest, true);
  }

  /** The last chunk and its trailer section. */
  lemma HalfWayEnd(all: string, done: string, data: string, line: string, afterLine: string, strict: bool)
    requires HalfWay(all, done, data, line + afterLine, strict)
    requires Delimited(line + afterLine, CRLF, SIZE_LINE_MAX) == Some(|line|) && ParseChunkSize(line) == Some(0)
    ensures ParseChunked(all, strict)
         == match TrailerLen(afterLine)
            case None => None
            case Some(t) => Some(Body(|done| + (|line| + t), data))
    ensures var t := TrailerLen(afterLine);
            t.Some? ==> all[..|done| + (|line| + t.value)] == done + line + afterLine[..t.value]
    ensures var t := TrailerLen(afterLine);
            t.Some? ==> all[|done| + (|line| + t.value)..] == afterLine[t.value..]
  {
    hide Delimited, ParseChunkSize, ParseChunked, TrailerLen;
    StepLast(line, afterLine, strict);
    assert data + "" == data;
    if TrailerLen(afterLine).Some? {
      TakeTwo(done, line, afterLine, TrailerLen(afterLine).value);
      DropPrefix(done, line, afterLine, TrailerLen(afterLine).value);
    }
  }

  /** Read one size line; without a usable one the body cannot be parsed. */
  method ReadSizeLine(r: PrefixedReader) returns (line: string, size: Option<nat>)
    requires r.Valid()
    modifies r
    ensures r.Valid() && r.Advanced()
    ensures size.Some? ==> old(r.Rest()) == line + r.Rest() && r.Failed() == old(r.Failed())
    ensures size.Some? ==> Delimited(old(r.Rest()), CRLF, SIZE_LINE_MAX) == Some(|line|) && ParseChunkSize(line) == size
    ensures size == None ==> r.Failed() || forall strict :: ParseChunked(old(r.Rest()), strict) == None
  {
    hide Delimited, ParseChunked, ParseChunkSize;
    ghost var before := r.Rest();
    var read := r.ReadUntil(CRLF, SIZE_LINE_MAX);
    if read == None {
      forall strict | !r.Failed() ensures ParseChunked(before, strict) == None { StepNoLine(before, strict); }
      return "", None;
    }
    line := read.value;
    size := ParseChunkSize(line);
    if size == None {
      forall strict ensures ParseChunked(before, strict) == None { StepMalformed(line, r.Rest(), strict); }
    }
  }

  // ---------------------------------------------------------------- a decoder halfway through

  /** What a decoder has passed on of the chunk data there is. */
  ghost predicate HalfDecoded(all: string, data: string, rest: string) {
    Decodable(all) == data + Decodable(rest)
  }

  lemma HalfDecodedStart(all: string)
    ensures HalfDecoded(all, "", all)
  {
    hide Decodable;
    assert "" + Decodable(all) == Decodable(all);
  }

  /** Some of the next chunk's data, or all of it and on to the chunk behind it. */
  lemma HalfDecodedChunk(all: string, data: string, line: string, afterLine: string, size: nat)
    requires HalfDecoded(all, data, line + afterLine) && size > 0
    requires Delimited(line + afterLine, CRLF, SIZE_LINE_MAX) == Some(|line|) && ParseChunkSize(line) == Some(size)
    ensures data + afterLine[..Min(size, |afterLine|)] <= Decodable(all)
    ensures size + 2 <= |afterLine| ==> HalfDecoded(all, data + afterLine[..size], afterLine[size + 2..])
  {
    DecodableChunk(line, afterLine, size);
    hide Decodable;
    var chunk := afterLine[..Min(size, |afterLine|)];
    var behind := if size + 2 <= |afterLine| then Decodable(afterLine[size + 2..]) else "";
    assert DataFrom(afterLine, size) == chunk + behind;
    Associate(data, chunk, behind);
  }

  lemma DecodableChunk(line: string, afterLine: string, size: nat)
    requires size > 0
    requires Delimited(line + afterLine, CRLF, SIZE_LINE_MAX) == Some(|line|) && ParseChunkSize(line) == Some(size)
    ensures Decodable(line + afterLine) == DataFrom(afterLine, size)
  {
    hide Delimited, ParseChunkSize, DataFrom;
    assert (line + afterLine)[..|line|] == line && (line + afterLine)[|line|..] == afterLine;
  }

  lemma HalfDecodedIsPart(all: string, data: string, rest: string)
    requires HalfDecoded(all, data, rest)
    ensures data <= Decodable(all)
  {}

  // ---------------------------------------------------------------- the sender

  /** One chunk as a sender may write it: any spelling of its size, any extension. */
  datatype Chunk = Chunk(size: string, extension: string, data: string)

  datatype Encoding = Encoding(chunks: seq<Chunk>, lastSize: string, lastExtension: string, trailers: seq<string>)

  predicate SizeLine(size: string, extension: string, n: nat) {
    && size != "" && (forall c :: c in size ==> DigitValue(c, Sixteen).Some?)
    && DigitsValue(size, Sixteen) == Some(n) && n <= 0xFFFF_FFFF_FFFF_FFFF
    && (TrimStart(extension) == "" || TrimStart(extension)[0] == ';') && '\n' !in extension
    && |size| + |extension| < 4096
  }

  /** RFC 7230 section 4.1, within the line limits of the relay. */
  predicate Conforming(e: Encoding) {
    && (forall c :: c in e.chunks ==> c.data != "" && SizeLine(c.size, c.extension, |c.data|))
    && SizeLine(e.lastSize, e.lastExtension, 0)
    && (forall t :: t in e.trailers ==> t != "" && '\n' !in t && |t| < 8192)
  }

  function EncodeChunk(c: Chunk): string {
    c.size + c.extension + "\r\n" + c.data + "\r\n"
  }

  function EncodeChunks(chunks: seq<Chunk>): string {
    if chunks == [] then "" else EncodeChunk(chunks[0]) + EncodeChunks(chunks[1..])
  }

  function Encode(e: Encoding): string {
    EncodeChunks(e.chunks) + (e.lastSize + e.lastExtension + "\r\n" + (Unlines(e.trailers) + "\r\n"))
  }

  function Entity(chunks: seq<Chunk>): string {
    if chunks == [] then "" else chunks[0].data + Entity(chunks[1..])
  }

  // ---------------------------------------------------------------- lines

  lemma DelimitedLine(line: string, rest: string, max: nat)
    requires '\n' !in line && |line| < max
    ensures Delimited(line + CRLF + rest, CRLF, max) == Some(|line| + 2)
    ensures (line + CRLF + rest)[..|line| + 2] == line + CRLF
    ensures (line + CRLF + rest)[|line| + 2..] == rest
  {
    var s := line + CRLF + rest;
    forall j: nat | j < |line| ensures !At(s, j, CRLF) {
      assert j + 1 < |line| ==> s[j + 1] == line[j + 1] && line[j + 1] in line;
      assert s[|line|] == '\r';
      assert s[j..j + 2][1] == s[j + 1];
    }
    FindIs(s, CRLF, |line|);
  }

  lemma {:induction false} TrimEndKeepsSolid(s: string, tail: string)
    requires s != "" && !IsSpace(s[|s| - 1])
    ensures s <= TrimEnd(s + tail) && TrimEnd(s + tail) <= s + tail
  {
    if tail == "" {
      assert s + tail == s;
    } else {
      var n := |tail| - 1;
      assert (s + tail)[|s| + n] == tail[n] && (s + tail)[..|s| + n] == s + tail[..n];
      TrimEndFacts(s + tail);
      if IsSpace(tail[n]) {
        TrimEndKeepsSolid(s, tail[..n]);
        assert s + tail[..n] <= s + tail;
      }
    }
  }

  lemma HexIsSolid(size: string)
    requires size != "" && forall c :: c in size ==> DigitValue(c, Sixteen).Some?
    ensures Trimmed(size) && ';' !in size && '\n' !in size && size[0] != '+'
  {
    assert size[0] in size && size[|size| - 1] in size;
  }

  lemma NoSemicolonYet(size: string, blanks: string, rest: string)
    requires ';' !in size && IsBlank(blanks)
    ensures Find(size + blanks + ";" + rest, ";") == |size| + |blanks|
  {
    var s, k := size + blanks + ";" + rest, |size| + |blanks|;
    forall j: nat | j < k ensures !At(s, j, ";") {
      assert s[j] == (size + blanks)[j];
      assert j < |size| ==> size[j] in size;
      assert s[j..j + 1] == [s[j]];
    }
    assert s[k..k + 1] == ";";
    FindIs(s, ";", k);
  }

  lemma NoSemicolon(size: string)
    requires ';' !in size
    ensures Find(size, ";") == |size|
  {
    forall j: nat ensures !At(size, j, ";") {
      if j < |size| { assert size[j] in size && size[j..j + 1] == [size[j]]; }
    }
    FindAbsent(size, ";");
  }

  /** Whatever stands behind the digits and blanks, the size line yields their value. */
  lemma SizeLineParses(size: string, extension: string, n: nat)
    requires SizeLine(size, extension, n)
    ensures ParseChunkSize(size + extension + CRLF) == Some(n)
  {
    hide TrimEnd, TrimStart, Trim, Find, IsBlank, DigitsValue, DigitValue, ParseUint;
    HexIsSolid(size);
    DigitsParse(size, n);
    TrimStartFacts(extension);
    var bare := TrimStart(extension);
    var blanks := extension[..|extension| - |bare|];
    BlanksInFront(extension);
    assert extension == blanks + bare;
    if bare == "" {
      assert extension == blanks;
      PlainSize(size, extension);
    } else {
      assert bare == ";" + bare[1..] && extension == blanks + (";" + bare[1..]);
      ExtendedSize(size, blanks, bare[1..]);
    }
  }

  lemma PlainSize(size: string, blanks: string)
    requires size != "" && Trimmed(size) && ';' !in size && IsBlank(blanks)
    ensures ParseChunkSize(size + blanks + CRLF) == ParseUint(size, Sixteen, USIZE_MAX)
  {
    hide TrimEnd, TrimStart, Trim, Find, IsBlank, ParseUint;
    assert size + blanks + CRLF == "" + size + (blanks + CRLF);
    BlankAnd(blanks);
    NoBlanks();
    TrimAround("", size, blanks + CRLF);
    NoSemicolon(size);
    TrimFixed(size);
    assert size[..|size|] == size;
  }

  lemma ExtendedSize(size: string, blanks: string, extension: string)
    requires size != "" && Trimmed(size) && ';' !in size && IsBlank(blanks)
    ensures ParseChunkSize(size + (blanks + (";" + extension)) + CRLF) == ParseUint(size, Sixteen, USIZE_MAX)
  {
    hide TrimEnd, TrimStart, Trim, Find, IsBlank, ParseUint;
    var solid := size + blanks + ";";
    var line := size + (blanks + (";" + extension)) + CRLF;
    assert line == solid + (extension + CRLF);
    SolidLine(size, blanks, extension + CRLF);
    var trimmed := Trim(line);
    var rest := trimmed[|solid|..];
    assert trimmed == size + blanks + ";" + rest;
    NoSemicolonYet(size, blanks, rest);
    assert trimmed[..|size| + |blanks|] == "" + size + blanks;
    NoBlanks();
    TrimAround("", size, blanks);
  }

  lemma DigitsParse(size: string, n: nat)
    requires size != "" && size[0] != '+' && DigitsValue(size, Sixteen) == Some(n) && n <= USIZE_MAX
    ensures ParseUint(size, Sixteen, USIZE_MAX) == Some(n)
  {}

  lemma NoBlanks()
    ensures IsBlank("")
  {}

  lemma {:induction false} BlanksInFront(s: string)
    ensures |TrimStart(s)| <= |s| && IsBlank(s[..|s| - |TrimStart(s)|])
  {
    if s != "" && IsSpace(s[0]) {
      BlanksInFront(s[1..]);
      var k := |s| - |TrimStart(s)|;
      assert s[..k] == [s[0]] + s[1..][..k - 1];
    }
  }

  lemma BlankAnd(s: string)
    requires IsBlank(s)
    ensures IsBlank(s + CRLF)
  {}

  lemma SolidLine(size: string, blanks: string, tail: string)
    requires size != "" && Trimmed(size)
    ensures size + blanks + ";" <= Trim(size + blanks + ";" + tail)
  {
    hide TrimEnd;
    var solid := size + blanks + ";";
    assert (solid + tail)[0] == size[0] && solid[|solid| - 1] == ';';
    TrimEndKeepsSolid(solid, tail);
  }

  // ---------------------------------------------------------------- round trip

  lemma {:induction false} TrailersParse(trailers: seq<string>, rest: string)
    requires forall t :: t in trailers ==> t != "" && '\n' !in t && |t| < TRAILER_LINE_MAX
    ensures TrailerLen(Unlines(trailers) + CRLF + rest) == Some(|Unlines(trailers)| + 2)
  {
    hide Delimited, TrailerLen;
    if trailers == [] {
      assert Unlines(trailers) + CRLF + rest == "" + CRLF + rest == CRLF + rest;
      DelimitedLine("", rest, TRAILER_LINE_MAX);
      TrailerStep(CRLF, rest);
    } else {
      var t := trailers[0];
      assert t in trailers;
      var tail := Unlines(trailers[1..]) + CRLF + rest;
      Regroup(t + CRLF, Unlines(trailers[1..]), CRLF, rest);
      DelimitedLine(t, tail, TRAILER_LINE_MAX);
      TrailerStep(t + CRLF, tail);
      TrailersParse(trailers[1..], rest);
    }
  }

  /** The four pieces of `data CRLF rest`. */
  lemma DataSlices(head: string, data: string, rest: string)
    ensures var s := head + (data + CRLF + rest);
            var l, n := |head|, |data|;
            |s| >= l + n + 2 && s[l..l + n] == data && s[l + n..l + n + 2] == CRLF && s[l + n + 2..] == rest
  {
    var s := head + (data + CRLF + rest);
    assert s == head + data + CRLF + rest;
    assert s[|head|..|head| + |data|] == data;
  }

  lemma SizeLineRead(size: string, extension: string, n: nat, tail: string)
    requires SizeLine(size, extension, n)
    ensures var s := size + extension + CRLF + tail; var l := |size| + |extension| + 2;
            Delimited(s, CRLF, SIZE_LINE_MAX) == Some(l) && ParseChunkSize(s[..l]) == Some(n)
            && s[..l] == size + extension + CRLF && s[l..] == tail
  {
    hide Delimited, ParseChunkSize, DigitValue, DigitsValue, TrimStart;
    HexIsSolid(size);
    DelimitedLine(size + extension, tail, SIZE_LINE_MAX);
    SizeLineParses(size, extension, n);
  }

  lemma ChunkPiece(c: Chunk, rest: string, strict: bool)
    requires c.data != "" && SizeLine(c.size, c.extension, |c.data|)
    ensures var s := EncodeChunk(c) + rest; var l, n := |c.size| + |c.extension| + 2, |c.data|;
            NextPiece(s, strict) == Data(l, n) && s[l..l + n] == c.data && s[l + n + 2..] == rest
  {
    hide Delimited, ParseChunkSize, NextPiece, SizeLine;
    var line := c.size + c.extension + CRLF;
    assert EncodeChunk(c) + rest == line + (c.data + CRLF + rest) by {
      Regroup(line, c.data, CRLF, rest);
    }
    SizeLineRead(c.size, c.extension, |c.data|, c.data + CRLF + rest);
    PieceData(line, c.data, CRLF, rest, strict);
    DataSlices(line, c.data, rest);
  }

  lemma LastPiece(e: Encoding, rest: string, strict: bool)
    requires e.chunks == [] && SizeLine(e.lastSize, e.lastExtension, 0)
    ensures var s := Encode(e) + rest; var l := |e.lastSize| + |e.lastExtension| + 2;
            NextPiece(s, strict) == Last(l) && s[l..] == Unlines(e.trailers) + CRLF + rest
  {
    hide Delimited, ParseChunkSize, SizeLine, Unlines;
    var line := e.lastSize + e.lastExtension;
    var tail := Unlines(e.trailers) + CRLF + rest;
    assert Encode(e) == "" + (line + CRLF + (Unlines(e.trailers) + CRLF));
    assert Encode(e) + rest == line + CRLF + tail;
    SizeLineRead(e.lastSize, e.lastExtension, 0, tail);
  }

  lemma EncodeCons(e: Encoding)
    requires e.chunks != []
    ensures Encode(e) == EncodeChunk(e.chunks[0]) + Encode(e.(chunks := e.chunks[1..]))
  {
    var tail := e.lastSize + e.lastExtension + CRLF + (Unlines(e.trailers) + CRLF);
    assert EncodeChunk(e.chunks[0]) + EncodeChunks(e.chunks[1..]) + tail
        == EncodeChunk(e.chunks[0]) + (EncodeChunks(e.chunks[1..]) + tail);
  }

  lemma ParseLastStep(s: string, strict: bool, l: nat, t: nat)
    requires NextPiece(s, strict) == Last(l) && TrailerLen(s[l..]) == Some(t)
    ensures ParseChunked(s, strict) == Some(Body(l + t, ""))
  {
    hide NextPiece, TrailerLen;
  }

  lemma ConformingTail(e: Encoding)
    requires Conforming(e) && e.chunks != []
    ensures Conforming(e.(chunks := e.chunks[1..]))
  {}

  lemma ParseLast(e: Encoding, rest: string, strict: bool)
    requires Conforming(e) && e.chunks == []
    ensures ParseChunked(Encode(e) + rest, strict) == Some(Body(|Encode(e)|, ""))
  {
    hide NextPiece, TrailerLen, ParseChunked, SizeLine;
    LastPiece(e, rest, strict);
    TrailersParse(e.trailers, rest);
    ParseLastStep(Encode(e) + rest, strict, |e.lastSize| + |e.lastExtension| + 2, |Unlines(e.trailers)| + 2);
  }

  lemma ParseFirst(e: Encoding, rest: string, strict: bool)
    requires Conforming(e) && e.chunks != []
    ensures var c, e' := e.chunks[0], e.(chunks := e.chunks[1..]);
            ParseChunked(Encode(e) + rest, strict) == Shift(|EncodeChunk(c)|, c.data, ParseChunked(Encode(e') + rest, strict))
  {
    hide NextPiece, ParseChunked, SizeLine, EncodeChunks, Encode;
    var c, e' := e.chunks[0], e.(chunks := e.chunks[1..]);
    assert c in e.chunks;
    EncodeCons(e);
    var tail := Encode(e') + rest;
    assert Encode(e) + rest == EncodeChunk(c) + tail;
    ChunkPiece(c, tail, strict);
    UnfoldData(EncodeChunk(c) + tail, strict, |c.size| + |c.extension| + 2, |c.data|);
  }

  /**
   A reader of a conforming body consumes exactly that body, whatever follows it, and recovers
   exactly the concatenated chunk data.
   */
  lemma {:induction false} ChunkedRoundTrip(e: Encoding, rest: string, strict: bool)
    requires Conforming(e)
    ensures ParseChunked(Encode(e) + rest, strict) == Some(Body(|Encode(e)|, Entity(e.chunks)))
    decreases |e.chunks|
  {
    hide ParseChunked, Encode, EncodeChunk, Conforming;
    if e.chunks == [] {
      ParseLast(e, rest, strict);
    } else {
      var c, e' := e.chunks[0], e.(chunks := e.chunks[1..]);
      ConformingTail(e);
      ParseFirst(e, rest, strict);
      ChunkedRoundTrip(e', rest, strict);
      EncodeCons(e);
      ShiftSome(|EncodeChunk(c)|, c.data, |Encode(e')|, Entity(e'.chunks));
    }
  }
}
