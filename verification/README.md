# Verified model of the acceleration proxy core

The acceleration proxy takes requests for a fixed set of domains, finds an upstream endpoint that still
answers, and relays bytes in both directions. This project models the parts of its core that carry state,
loops or arithmetic, and proves what they promise for every input, every schedule and every answer of the
network. `dafny verify dfyconfig.toml` checks all of it.

| modules | what they model |
|---|---|
| `UpstreamFallback`, `FallbackLaws`, `FallbackMeaning` | the dial run: which endpoints are tried, when the run stops, what is sent twice |
| `HedgedRace` | the timed race of one request over several endpoints |
| `Endpoints` | which endpoints a request is offered, under which name and in which order |
| `Upstream`, `Exchange` | the idle connection pool, the one-byte body probe, one exchange end to end |
| `Http1`, `Http1Laws`, `Chunked`, `Streams` | HTTP/1.1 requests: reader, writer, chunked coding (RFC 7230) |
| `ResponseRelay`, `ResponseLaws` | HTTP/1.1 responses: verbatim and decoding relay |
| `Http2Leg`, `Http2Path` | the HTTP/2 writer, and the whole path from the upstream connection to the HTTP/2 stream |
| `TunnelRelay` | the two pumps of a byte tunnel, with half-close and abort |
| `ClientHello` | the server name of a peeked TLS ClientHello |
| `HostsFile`, `HostsLaws`, `HostsLines`, `HostsMeaning` | the hosts-file rewriter, as text and as a name lookup |
| `DnsCodec`, `DnsCache` | DNS messages (RFC 1035) and the answer cache |
| `DnsIntercept`, `DnsInterceptLaws`, `Checksum` | the in-place rewrite of a captured DNS query (RFC 791, RFC 1071) |
| `AgentSocks`, `AgentHttp`, `Base64` | the handshake with a second-level proxy (RFC 1928, RFC 1929) |
| `DomainMatch` | the three readings of a domain pattern, and the substitute-name table |
| `Text`, `Numbers`, `Bytes`, `Sequences` | shared text, number, byte and sequence primitives |

Code that changes things step by step is a method with loops, or a class, proved against a function of its
inputs; the laws are lemmas about those functions. Concurrent code (`HedgedRace`, `TunnelRelay`) is a
transition system whose events come from an arbitrary schedule, and a method that follows the schedule.
Reads and writes may fail at any time on a connection that is not `steady`; on steady ones every operation must
succeed. What lies outside - dial outcomes, DNS answers, timers, segment sizes, flow control, the address parser
(`isIp`, `Target`), the UTF-8 check (`utf8`) - is a parameter or a nondeterministic choice. In text
protocols one `char` stands for one byte; binary messages are sequences of `Byte`.

## Where the code does less than its comments say

Each point is a lemma; where a promise fails, the exact condition under which it holds is proved, and a
concrete input shows the failure.

- A request that must not be repeated can be sent twice through a reused connection: when that connection
  answers with a head whose body does not start, or with a gateway status (which skips the probe), the dial
  run sends it again (`FallbackLaws.WrittenTwiceIffUnvouched`, `FallbackLaws.NeverTwiceIffVouched`,
  `FallbackLaws.PostWrittenTwice`). In the dial run itself it is written at most once.
- A request body that came without a framing header, as HTTP/2 allows, is written upstream without a length
  and is lost to the upstream's reader (`Http1Laws.BodySurvivesIffFramed`, `Http1Laws.UnframedBodyIsLost`).
- A broken response is meant to be reset on its HTTP/2 stream. One that is delimited by the end of the upstream
  connection is not: when the relay breaks off, the pipe closes (crates/core/src/mitm.rs:462-475), the reader
  takes that for the end of the body (crates/core/src/http1.rs:429-440), and the stream is ended as complete.
  Every other cut is recognised (`Http2Path.CutPipeDeliversIffUntilClose`, `Http2Path.HalfABodyEndsTheStream`).
- A hosts line that names both a managed and an unmanaged host is moved to the backup; the unmanaged host
  keeps its meaning only if no other line gives it a different address
  (`HostsMeaning.UnmanagedNamesResolveAsBefore`, `HostsMeaning.SharedLineLosesItsPlace`).
- The peek loop never ends by itself on a partial ClientHello whose sender has closed; only the caller's
  timeout ends it (`ClientHello.PartialHelloIsPolledForEver`). The result does not depend on timing exactly when
  the record claims at least its message or there is no name to be found
  (`ClientHello.OneAnswerIffRecordHoldsMessage`, `ClientHello.ShortRecordDependsOnTiming`).
- Answer names made of labels and a pointer are not skipped correctly (`DnsCodec.NameIsSkippedIffPlain`,
  `DnsCodec.LabelsBeforePointerAreLost`).
- The query writer checks the room for the name, not for the four bytes behind it (`DnsCodec.BuildAQuery`,
  `DnsCodec.LongNameRunsOffTheBuffer`), and cuts label lengths to one byte (`DnsCodec.QuestionReadsBackIffSized`).
- `*.x.com` accelerates `ax.com`, though neither the PAC script nor the interceptor covers it
  (`DomainMatch.AcceleratedIffInterceptedOrInsideLabel`, `DomainMatch.StarReachesInsideLabel`).
- The substitute name depends on the iteration order of the table exactly when two matching entries with
  different names are both unbeaten (`DomainMatch.NameIsOrderFreeIffNoTie`, `DomainMatch.TieDependsOnOrder`);
  well-formed keys never tie (`DomainMatch.WellFormedKeysDoNotTie`).

## Model

| member | source | states |
|---|---|---|
| UpstreamFallback.CollectNew | crates/core/src/http1.rs:595-608 | the candidate and fallback loops append every address not known yet, each once, in order (`NewIps`); the port is the same for all |
| UpstreamFallback.ResolveAlternatives | crates/core/src/dns.rs:306-366 | alternative answers are the distinct addresses of all resolvers, in order, without the excluded ones |
| UpstreamFallback.OrderAddresses | crates/core/src/mitm.rs:1262-1299 | first endpoints: configured then resolved, the last good one in front, a single placeholder behind an agent, the published edges appended for an authenticated request |
| UpstreamFallback.NoSniRun | crates/core/src/mitm.rs:1312-1372 | the attempts without a server name are made in address order and stop at the first outcome that stops a run |
| UpstreamFallback.OpenFallbacks | crates/core/src/mitm.rs:1499-1653 | one turn through the one-shot fallbacks: host addresses, then other answers for the alias, then for the host; either attempts are added and a flag is spent, or all flags are spent |
| UpstreamFallback.SniRun | crates/core/src/mitm.rs:1424-1655 | the attempt loop follows the plan and ends: every turn uses up an attempt or spends a flag (lexicographic measure) |
| UpstreamFallback.DialRun | crates/core/src/mitm.rs:1241-1657 | the whole dial run of a request that is not raced: its attempts are a prefix of the plan, it stops exactly at the first stopping outcome, at the end of the plan, or when the budget ends |
| FallbackLaws.NewIpsFacts | crates/core/src/http1.rs:595-608 | the collected addresses are distinct and exactly those that were asked for and not known |
| FallbackLaws.FirstAddressesDistinct | crates/core/src/mitm.rs:1262-1299 | the first endpoints are distinct |
| FallbackLaws.LaterFacts | crates/core/src/mitm.rs:1499-1653 | whatever the lookups answer, the fallbacks add only distinct attempts at addresses not tried before |
| FallbackLaws.PlanIsDistinct | crates/core/src/mitm.rs:1300-1653 | no (server name, endpoint) pair occurs twice in the plan, for all DNS answers |
| FallbackLaws.NoAttemptTwice | crates/core/src/mitm.rs:1424-1657 | for every sequence of dial outcomes and DNS answers no pair is dialled twice; a run that leaves by the final break has dialled the whole plan and no outcome stopped it |
| FallbackLaws.ExhaustedMeansEverythingTried | crates/core/src/mitm.rs:1424-1657 | an exhausted run has dialled every name at every first address, and every address the host lookup gave |
| FallbackLaws.AliasAddressesFirst | crates/core/src/mitm.rs:1499-1525 | the host's own and all later addresses are dialled only after every alias address was dialled in vain, without a name and under every name |
| FallbackLaws.RacedIsRepeatable | crates/core/src/mitm.rs:1306-1311 | a request that must not be repeated is never raced |
| FallbackLaws.WrittenAtMostOnce | crates/core/src/mitm.rs:1312-1495 | in every dial run a request that must not be repeated is written on at most one connection |
| FallbackLaws.RunWritesIff | crates/core/src/mitm.rs:1312-1495 | a dial run of such a request writes it exactly when the first planned attempt that gets a connection does |
| FallbackLaws.WrittenTwiceIffUnvouched | crates/core/src/mitm.rs:1171-1234 | counting an idle connection as well, such a request is written twice exactly when that connection answered with a body the probe does not vouch for and the first attempt that then gets a connection writes it |
| FallbackLaws.NeverTwiceIffVouched | crates/core/src/mitm.rs:1171-1234 | over all worlds and runs such a request is written at most once exactly when the idle connection's answer is not an unvouched body |
| FallbackLaws.PostWrittenTwice | crates/core/src/mitm.rs:1191-1223 | a concrete run in which a form post is written on two connections |
| FallbackLaws.DialsAfterReuse | crates/core/src/mitm.rs:1171-1234 | when dialling goes on after an idle connection was tried: not if its answer has no body or the body started, unless a repeatable request could avoid a gateway error; and not if a request that must not be repeated was written |
| FallbackMeaning.RacedIff | crates/core/src/mitm.rs:1280-1311 | raced are exactly GET, HEAD, OPTIONS and TRACE, in any case, to an accelerated host without a second proxy, without a session cookie |
| FallbackMeaning.SentOnce | crates/core/src/mitm.rs:680-690 | a POST or PATCH outside Git paths, and every request to a host that is not accelerated, is never raced and goes on exactly after a failed connect: never sent twice |
| FallbackMeaning.GoesOnToNext | crates/core/src/mitm.rs:680-697 | every other request to an accelerated host goes on to the next planned attempt exactly after a failed connect, a failed write, no response, or status 500, 502, 503, 504; any other answer is adopted |
| Endpoints.FirstEndpoints | crates/core/src/mitm.rs:1262-1299 | which addresses are offered first and in which order: the last good one, the configured, the resolved, the published edges for authenticated requests; only a placeholder behind a second proxy |
| Endpoints.PlanStarts | crates/core/src/mitm.rs:1312-1423 | the first attempts by position: every address without a name if allowed, then all under the shown name, then all under the dialled one |
| Endpoints.PlanContents | crates/core/src/mitm.rs:1312-1653 | an attempt is planned exactly if it is a first address in a way it may be shown, or new among the host's own addresses, other resolvers' for the dialled name, or theirs for the host, under the names these stages use |
| Endpoints.StagesInOrder | crates/core/src/mitm.rs:1424-1653 | each stage is used up before the next one starts |
| Endpoints.LaterOrder | crates/core/src/mitm.rs:1499-1653 | within a later stage addresses keep the order of the answers, and one address takes its names in order |
| HedgedRace.HedgedAttempts | crates/core/src/mitm.rs:1038-1099 | the select loop under any schedule of ticks, timer, completions and deadline: it ends, its steps are the schedule's, its verdict is the one those steps decide |
| HedgedRace.CollectCandidates | crates/core/src/mitm.rs:1377-1416 | initial and fallback candidates in order: at each address the connection without a name, then every name; fallback only at edges not tried |
| Endpoints.CandidateContents | crates/core/src/mitm.rs:1377-1416 | a candidate is offered exactly for every first address in every way it may be shown, and as a fallback for every published edge that was neither resolved nor offered |
| Endpoints.CandidatesInOrder | crates/core/src/mitm.rs:1377-1416 | candidates go address by address, at each one without a name first, then under the shown name, then under the dialled one |
| HedgedRace.SoundAfter | crates/core/src/mitm.rs:1057-1097 | after any run the started tasks are exactly the first ticked ones and, once the timer fired, the fallback ones; started = running + finished; the clocks allow what was started; every step uses up work |
| HedgedRace.StartedAtMostOnce | crates/core/src/mitm.rs:1057-1097 | under every interleaving each candidate is started at most once, at most one per 600 ms before the fallback timer, and a run has at most 2I + F + 2 steps |
| HedgedRace.WinnerIsFirstUsable | crates/core/src/mitm.rs:1080-1096 | the answer returned has a non-gateway status, comes from a started candidate that had not finished, and no usable answer came earlier |
| HedgedRace.GivesUpWhenAllFailed | crates/core/src/mitm.rs:1057-1099 | giving up without the deadline means every candidate was started and finished without a usable answer |
| HedgedRace.HealthyPrimaryCostsOneRequest | crates/core/src/mitm.rs:1029-1036 | a primary that answers before the first hedge is due costs exactly one request |
| HedgedRace.NextStepIff | crates/core/src/mitm.rs:1057-1097 | how any race can go on: the deadline from 32 s, the next candidate when due, the published edges once from 1.5 s, the end of any running task |
| HedgedRace.Rhythm | crates/core/src/mitm.rs:1053-1064 | the first candidate is due at once, each next one exactly 600 ms later while none starts more than 5 ms late |
| HedgedRace.LateStart | crates/core/src/mitm.rs:1053-1064 | after a late start the next one is due 600 ms later |
| HedgedRace.StartsOnTime | crates/core/src/mitm.rs:1049-1054 | a race begins with nothing started and the first candidate due |
| HedgedRace.CandidatesAreDistinct | crates/core/src/mitm.rs:1377-1416 | no (server name, endpoint) pair is a candidate twice, across both lists |
| HedgedRace.NoPairRacedTwice | crates/core/src/mitm.rs:1038-1099 | over every run of the race no (server name, endpoint) pair is dialled twice |
| Upstream.UpstreamPool.Retain | crates/core/src/mitm.rs:744-744 | exactly the connections idle for less than 15 s are kept, in order |
| Upstream.LiveFacts | crates/core/src/mitm.rs:744-744 | live are exactly the connections put back less than 15 s ago, in order |
| Upstream.UpstreamPool.Take | crates/core/src/mitm.rs:737-749 | the first live connection to the target that the caller allows is taken out, and only that one |
| Upstream.UpstreamPool.Put | crates/core/src/mitm.rs:751-758 | the connection is appended if fewer than 64 live ones remain |
| Upstream.ProbeIff | crates/core/src/mitm.rs:817-853 | one byte is awaited unless a gateway error is answered or no body is to come |
| Upstream.ProbeBody | crates/core/src/mitm.rs:840-853 | a head that needs a probe is adopted only with one body byte; the prefix and the rest are the unread bytes; it is refused only if the connection broke or ended |
| Upstream.FinishResponse | crates/core/src/mitm.rs:1687-1743 | for every framing the client is sent the head and then exactly the body, unless a connection fails or the body is cut; then a beginning of both; the bare connection is pooled, at the exact end of the response, exactly if it can be kept |
| Upstream.ProbedByteBelongsToBody | crates/core/src/mitm.rs:817-853 | the probed byte is always part of the body that is then read |
| Upstream.PrefixUsedUp | crates/core/src/mitm.rs:786-814 | a reader that passed its prefix stands on the bare connection |
| Exchange.ServeExchange | crates/core/src/mitm.rs:856-885 | head, probe, stream, pool in one: on connections that hold, every response that is not cut reaches the client as its head and exactly its body; a kept connection holds exactly what the upstream sends next |
| Streams.PrefixedReader.Read | crates/core/src/mitm.rs:798-814 | the prefix is served before the connection, nothing is lost or repeated |
| Streams.PrefixedReader.ReadUntil | crates/core/src/http1.rs:525-540 | a line or head is read up to and including its terminator, exactly when that lies within the limit |
| Streams.PrefixedReader.ReadExact | crates/core/src/http1.rs:512-522 | exactly n bytes, or a failure |
| Http1.ReadHeaders | crates/core/src/http1.rs:95-100 | header lines are split at the first colon and trimmed; lines without one are skipped |
| Http1.ReadHead | crates/core/src/http1.rs:71-100 | the request head parser on what `PrefixedReader` delivers, and exactly its bytes |
| Http1.ReadTrailers | crates/core/src/http1.rs:129-140 | trailer lines are consumed up to and including the empty one |
| Chunked.ReadSizeLine | crates/core/src/http1.rs:446-453 | one size line is read and consumed; without a usable one no chunked body can be parsed |
| Http1.ReadChunkedBody | crates/core/src/http1.rs:124-148 | the chunked reader returns the decoded entity and stands behind it |
| Http1.ReadBody | crates/core/src/http1.rs:114-157 | the body by its framing headers: chunked first, then Content-Length, else none |
| Http1.ReadRequest | crates/core/src/http1.rs:67-164 | the request parser: what it returns, what it consumes, and the interim response it writes |
| Http1.WriteRequest | crates/core/src/http1.rs:176-256 | the written request is `RequestText`: hop-by-hop and framing headers dropped, cookies merged, own headers added |
| Http1.WriteOwnHeaders | crates/core/src/http1.rs:239-252 | the headers added by the writer itself |
| Http1Laws.HeadDelimited | crates/core/src/http1.rs:71-87 | the first empty line of a written head is its last, and its lines read back |
| Http1Laws.HeaderLinesParse | crates/core/src/http1.rs:95-100 | clean header lines parse back to the headers |
| Http1Laws.UpstreamHeaders | crates/core/src/http1.rs:201-252 | whatever the client sent: one merged Cookie, one Content-Length equal to the body iff any framing header existed, no Transfer-Encoding, no Expect |
| Http1Laws.EndToEndHeadersArrive | crates/core/src/http1.rs:204-242 | every other header arrives unchanged, as often and in the order it was sent |
| Http1Laws.HopHeadersStop | crates/core/src/http1.rs:205-218 | headers about the client's own hop are not passed on |
| Http1Laws.UpstreamHost | crates/core/src/http1.rs:191-242 | the upstream is told the host, with its port unless it is 80 or 443, once or as often as the client named one |
| Http1Laws.ConnectionHeaders | crates/core/src/http1.rs:234-252 | the client's connection options are passed on; without any the upstream is asked to keep the connection |
| Http1Laws.CookiesAre | crates/core/src/http1.rs:222-247 | the merged cookie holds every non-blank cookie header, in order |
| Http1Laws.FramedIff | crates/core/src/http1.rs:218-251 | a request counts as framed if it has a Content-Length or Transfer-Encoding header |
| Http1Laws.TargetForms | crates/core/src/http1.rs:176-187 | the path alone, or scheme, host and path for a proxy |
| Http1Laws.ExpectsIff | crates/core/src/http1.rs:104-113 | an interim answer is due if some Expect header asks for it, in any case |
| Http1Laws.ChunkedIff | crates/core/src/http1.rs:120-123 | a body is chunked if some Transfer-Encoding header says so, in any case |
| Http1Laws.LengthReads | crates/core/src/http1.rs:115-119 | the first length header decides, with blanks around it and a plus sign if the sender likes |
| Http1Laws.HeaderLineReads | crates/core/src/http1.rs:95-100 | a header line is split at its first colon and trimmed; without one it is skipped |
| Http1Laws.HeadLinesRead | crates/core/src/http1.rs:89-94 | method and path are the first two words of the first line, whatever follows them |
| Http1Laws.LinesEndAtLineFeed | crates/core/src/http1.rs:88-90 | lines end at a line feed, with or without a carriage return |
| Text.WhiteSpace | crates/core/src/http1.rs:96-99 | what counts as white space |
| Text.LetterCase | crates/core/src/http1.rs:103-123 | names and options are compared with the 26 letters folded |
| Numbers.DecimalDigitsAre | crates/core/src/http1.rs:247-248 | numbers are written in decimal, most significant digit first |
| Http1Laws.HeadRoundTrip | crates/core/src/http1.rs:176-256 | the written head reads back with the rewritten headers, unless it exceeds the reader's limit |
| Http1Laws.RequestRoundTrip | crates/core/src/http1.rs:67-256 | reading the written request followed by anything: same verb, target and body, and exactly its bytes, for every clean request; a head beyond the limit is refused |
| Http1Laws.BodySurvivesIffFramed | crates/core/src/http1.rs:219-254 | body and following bytes survive exactly when the head fits the reader's limit and the body was framed or is empty (an HTTP/2 body need not be framed) |
| Http1Laws.UnframedBodyIsLost | crates/core/src/mitm.rs:376-400 | a post from an HTTP/2 client without a length: the upstream's reader finds an empty body and the byte "x" behind it |
| Http1Laws.ReadRequestsAreClean | crates/core/src/http1.rs:67-164 | every request the reader can return is clean, and has a body only if it was framed |
| Http1Laws.ForwardedRequestReadsBack | crates/core/src/http1.rs:67-256 | for every request that can be read: written and read again it is the same request with the upstream headers, and what follows is untouched; only a head grown beyond the limit is refused |
| Chunked.StepData | crates/core/src/http1.rs:141-147 | one chunk: its data, then the rest of the body |
| Chunked.StepLast | crates/core/src/http1.rs:129-140 | the zero chunk: the trailer section, then the end |
| Chunked.SizeLineParses | crates/core/src/http1.rs:542-553 | a size line is read for any spelling of its hexadecimal size, blanks and extension |
| Numbers.HexReadsBack | crates/core/src/http1.rs:542-553 | hexadecimal sizes read back, in small and capital letters |
| Chunked.ParseLast | crates/core/src/http1.rs:542-553 | the last chunk and its trailers are recognised in any spelling of the size |
| Chunked.ChunkedRoundTrip | crates/core/src/http1.rs:446-494 | any conforming encoding - chunk sizes, extensions, trailers within the limits - is consumed exactly and yields the concatenated chunk data |
| ResponseRelay.StreamExactN | crates/core/src/http1.rs:555-571 | exactly n bytes pass from reader to writer |
| ResponseRelay.RelayTrailers | crates/core/src/http1.rs:454-464 | the trailer section passes verbatim; a relay that fails has passed on a beginning of it |
| ResponseRelay.RelayData | crates/core/src/http1.rs:465-468 | chunk data and the two bytes behind it pass, or the data alone when decoding |
| ResponseRelay.RelayPiece | crates/core/src/http1.rs:451-468 | a size line and what it announces pass verbatim, or a beginning of both |
| ResponseRelay.RelayChunked | crates/core/src/http1.rs:446-470 | a chunked body passes byte for byte and the reader stands behind it; a relay that fails has passed on a beginning of it |
| ResponseRelay.DecodePiece | crates/core/src/http1.rs:478-493 | of one piece only chunk data passes |
| ResponseRelay.RelayChunkedDecoded | crates/core/src/http1.rs:474-494 | only the chunk data passes and the same bytes are consumed; a relay that fails has passed on a beginning of that data |
| ResponseRelay.RelayUntilClose | crates/core/src/http1.rs:429-440 | an unframed body passes up to the end of the connection |
| ResponseRelay.RelayBody | crates/core/src/http1.rs:414-442 | the body passes by its framing |
| ResponseRelay.StreamResponseBody | crates/core/src/http1.rs:362-443 | rewritten head, then the framed body; whether the connection may be kept |
| ResponseRelay.ReadResponseHead | crates/core/src/http1.rs:265-335 | the first head that is no interim response, and exactly its bytes |
| ResponseLaws.HeadTextReadsBack | crates/core/src/http1.rs:389-412 | the relayed head reads back as the head that was meant, and is refused beyond the reader's limit |
| ResponseLaws.StatusLineReads | crates/core/src/http1.rs:304-311 | a status line of any version, with a reason or without one; statuses above 65535 are refused |
| ResponseLaws.HeadReads | crates/core/src/http1.rs:287-335 | heads with status 100, 102 or 103 are passed over, every other status is the answer |
| ResponseLaws.NoBodyIff | crates/core/src/http1.rs:376-379 | no body comes with HEAD in any case, 1xx, 204 and 304 |
| ResponseLaws.FramingByHeaders | crates/core/src/http1.rs:380-387 | chunks win over a length, and without either the end of the connection ends the body |
| ResponseLaws.KeepAliveIff | crates/core/src/http1.rs:369-375 | a connection can be kept unless its first Connection header mentions close, in any case |
| ResponseLaws.HeadersReachClient | crates/core/src/http1.rs:389-412 | every header reaches the client as often and in the order it was sent, except those about one hop, a length next to chunks and a coding without them; closing is announced |
| ResponseLaws.RelayedHeadMeansTheSame | crates/core/src/http1.rs:389-412 | the relayed head announces the same framing and the same fate of the connection |
| ResponseLaws.EntityIsPreserved | crates/core/src/http1.rs:362-494 | reading what the verbatim relay wrote gives the same framing and entity, and takes exactly the bytes the relay took; a head grown beyond the limit is refused |
| ResponseLaws.NextExchangeStartsClean | crates/core/src/http1.rs:362-443 | for chunked, Content-Length and bodyless responses the reader stands at the first byte of the next response |
| ResponseLaws.ReadHeadsAreClean | crates/core/src/http1.rs:287-335 | every head that can be read is clean |
| Http2Leg.H2StreamWriter.PollWrite | crates/core/src/mitm.rs:283-322 | the first buffer (the HTTP/1.1 head) is swallowed, of the others some positive part is sent |
| Http2Leg.H2StreamWriter.WriteAll | crates/core/src/mitm.rs:283-322 | a whole buffer is sent for every way flow control cuts it, or a beginning of it |
| Http2Leg.H2StreamWriter.WriteBuffers | crates/core/src/mitm.rs:462-474 | everything but the head is sent in order, or a beginning of it |
| Http2Leg.BuildHead | crates/core/src/mitm.rs:503-543 | the HTTP/2 head: status, and the headers that have a place in HTTP/2; the length only where no body follows |
| Http2Leg.HeadReachesHttp2 | crates/core/src/mitm.rs:503-543 | these headers arrive as often and in the order they were sent, and no others |
| Http2Leg.Respond | crates/core/src/mitm.rs:423-481 | the stream is ended only if the pipe held a whole response and exactly its entity was sent, and reset only after a failure or on a pipe that held none; in any case a beginning of the entity was sent |
| Http2Leg.ChunkedPrefix | crates/core/src/http1.rs:474-494 | a chunked body is recognised by its own bytes, whatever follows |
| Http2Leg.DecodablePrefix | crates/core/src/http1.rs:474-494 | a decoder that has seen only part of a whole body has passed on a beginning of its entity |
| Http2Path.CarriedIsFound | crates/core/src/http1.rs:414-441 | whatever an upstream may send for an entity in a framing, with anything behind it, is found as that entity, and exactly its bytes |
| Http2Path.CutBodyIsWholeIffUntilClose | crates/core/src/http1.rs:414-441 | a proper beginning of a body passes for a whole body exactly when the end of the connection delimits it |
| Http2Path.CutPipeDeliversIffUntilClose | crates/core/src/mitm.rs:462-475 | a pipe that ends inside the body delivers the part as the whole exactly for a close-delimited response with a readable head; every other one is recognised as cut |
| Http2Path.HalfABodyEndsTheStream | crates/core/src/mitm.rs:462-475 | a concrete response of two bytes of which the first alone is delivered as the whole |
| Http2Path.EntityReachesHttp2 | crates/core/src/mitm.rs:423-475 | for any chunk sizes, extensions and trailers, any length and any close-delimited body, a whole pipe delivers exactly the entity the upstream meant |
| Http2Path.HeadersReachHttp2 | crates/core/src/mitm.rs:423-460 | through both legs every header that has a place in HTTP/2 arrives as often and in the order the upstream sent it |
| Http2Path.ForwardToHttp2 | crates/core/src/mitm.rs:347-484 | verbatim relay, pipe, decoding relay and HTTP/2 writer in one: a completed stream carried exactly the upstream's entity (if the relay was complete or the body is not close-delimited), the upstream stands at the next response, and in every run only a beginning of the entity was sent |
| TunnelRelay.PumpTask.Resume | crates/core/src/fwd.rs:504-531 | one pump from one await point to the next, abort signal first |
| TunnelRelay.Relay | crates/core/src/fwd.rs:487-500 | both pumps joined, under any schedule: the run is the schedule's and it ends |
| TunnelRelay.FaithfulKept | crates/core/src/fwd.rs:509-531 | what every step keeps: delivered is a prefix of read, read of sent; a FIN only after everything; each step uses up work |
| TunnelRelay.EachSideReceivesPrefix | crates/core/src/fwd.rs:487-531 | under every interleaving each side receives a prefix of what its peer sent, and its end only after all of it; a run has at most 2(\|a\|+\|b\|)+4 steps |
| TunnelRelay.CleanTunnelDeliversAll | crates/core/src/fwd.rs:476-486 | without errors both sides receive everything and then a FIN, whichever direction ended first |
| TunnelRelay.ErrorDropsBothSides | crates/core/src/fwd.rs:510-529 | after an error in one direction the other pump, if still copying, makes no further read and no half-close: at most two more steps |
| TunnelRelay.BrokenSideShowsNoEnd | crates/core/src/fwd.rs:519-530 | the direction that broke never sends a FIN |
| TunnelRelay.EventsOfPump | crates/core/src/fwd.rs:504-531 | what can happen to a pump at each await point |
| TunnelRelay.AbortLosesNothing | crates/core/src/fwd.rs:509-518 | a pump that is told to stop has passed on everything it had read |
| ClientHello.SniFromClientHello | crates/core/src/fwd.rs:429-474 | the bounds-checked reader computes `ServerName` |
| ClientHello.PeekClientSni | crates/core/src/fwd.rs:392-419 | the polling loop decides at the first poll that has the whole record |
| ClientHello.NameReadsBack | crates/core/src/fwd.rs:459-470 | the first entry of a server_name extension is read |
| ClientHello.OtherEntriesNameNothing | crates/core/src/fwd.rs:459-469 | an entry of another type, an empty one or one that is not text gives no name |
| ClientHello.ExtensionsReadBack | crates/core/src/fwd.rs:454-473 | among arbitrary extensions the first server_name decides |
| ClientHello.BlockReadsBack | crates/core/src/fwd.rs:442-453 | session id, cipher suites and compression methods of any length are skipped |
| ClientHello.HelloReadsBack | crates/core/src/fwd.rs:429-474 | every one-record ClientHello gives its first name, trailing bytes do not matter, every strict prefix gives nothing |
| ClientHello.MessageReadsBack | crates/core/src/fwd.rs:429-474 | behind a record header that claims any length the message gives its first name, and every strict prefix gives nothing |
| ClientHello.PeekAtMessage | crates/core/src/fwd.rs:404-415 | what one peek decides for every claimed record length, message, trailing bytes and number of queued bytes |
| ClientHello.PeekAtHello | crates/core/src/fwd.rs:404-415 | one peek decides exactly when all of the record is queued |
| ClientHello.AnySegmentationGivesTheName | crates/core/src/fwd.rs:392-419 | every segmentation gives the same name |
| ClientHello.PartialHelloIsPolledForEver | crates/core/src/fwd.rs:396-418 | a partial ClientHello is never decided by the loop, even after the peer closed |
| ClientHello.OneAnswerForAllSegmentations | crates/core/src/fwd.rs:392-419 | if any two polls that decide agree, any two segmentations that end the loop give the same result |
| ClientHello.OneAnswerIffRecordHoldsMessage | crates/core/src/fwd.rs:404-415 | for every record length, message and trailing bytes, all polls that decide agree exactly when the record claims at least the message or there is no name |
| ClientHello.ShortRecordDependsOnTiming | crates/core/src/fwd.rs:404-415 | a concrete hello in a record that claims less than it: two polls decide differently |
| HostsFile.HostsStore.Write | crates/core/src/hosts.rs:130-136 | texts over 50 MiB are refused and leave the file alone, others become the whole file |
| HostsFile.HostsStore.Update | crates/core/src/hosts.rs:181-265 | the three-phase loop writes `UpdateText` or nothing |
| HostsFile.HostsStore.Remove | crates/core/src/hosts.rs:272-320 | the three-phase loop writes `RemoveText` or nothing |
| HostsFile.PopBlankTail | crates/core/src/hosts.rs:237-243 | trailing blank lines are dropped |
| HostsFile.AppendEntries | crates/core/src/hosts.rs:249-255 | entries with both parts become one line each |
| HostsFile.Render | crates/core/src/hosts.rs:244-263 | main part, marked block, marked backup, in this order |
| HostsLines.FileIs | crates/core/src/hosts.rs:244-263 | the written file: the user's lines, the managed block, the hidden lines in their own block, separated by empty lines |
| HostsLines.MarkTexts | crates/core/src/hosts.rs:17-20 | the text of the four markers |
| HostsLines.EntryIs | crates/core/src/hosts.rs:249-255 | an entry is one line, its address in front of its name, if both are given |
| HostsLines.LineNames | crates/core/src/hosts.rs:90-111 | a line names exactly the words between its address and its comment, in any case, and resolves them to its address; without an address it names nothing |
| HostsLines.CommentNamesNothing | crates/core/src/hosts.rs:82-93 | blank lines and comments name nothing |
| HostsLines.MarksAre | crates/core/src/hosts.rs:76-80 | the four markers by their words, in any case and with any blanks |
| HostsLaws.Rescan | crates/core/src/hosts.rs:193-263 | reading a rendered file recovers the two parts it was rendered from |
| HostsLaws.UpdateKeepsUserLines | crates/core/src/hosts.rs:181-265 | for every text an update keeps the set of the user's non-blank lines |
| HostsLaws.UpdateIsIdempotent | crates/core/src/hosts.rs:181-265 | for every text a repeated update changes no byte |
| HostsLaws.UpdateKeepsBrackets | crates/core/src/hosts.rs:193-263 | markers stay well bracketed over an update |
| HostsLaws.RemovedLines | crates/core/src/hosts.rs:272-320 | the lines a removal leaves |
| HostsLaws.RemoveKeepsUserLines | crates/core/src/hosts.rs:272-320 | a removal leaves no marker and keeps the user's non-blank lines |
| HostsLaws.HistoryKeepsUserLines | crates/core/src/hosts.rs:181-320 | over any history of updates and removals markers stay bracketed and the user's non-blank lines are unchanged |
| HostsMeaning.RemoveAfterUpdate | crates/core/src/hosts.rs:181-320 | remove after update: the never-managed lines in their original order, then each hidden line once |
| HostsMeaning.UsableIsWritable | crates/core/src/hosts.rs:249-255 | entries of plain names and addresses render to lines that read back |
| HostsMeaning.ResolveEntries | crates/core/src/hosts.rs:249-255 | the managed block resolves every managed name to its first entry |
| HostsMeaning.ManagedNamesResolveToEntries | crates/core/src/hosts.rs:181-265 | after an update every managed name resolves to its first entry, whatever the file held |
| HostsMeaning.UnmanagedNamesResolveAsBefore | crates/core/src/hosts.rs:193-235 | a name that is not managed resolves as before exactly when no unmanaged line gives it another address than its first line |
| HostsMeaning.SharedLineLosesItsPlace | crates/core/src/hosts.rs:193-235 | two lines for a name, the first shared with a managed one: after the update the name resolves to the second address |
| HostsMeaning.UnsharedNamesResolveAsBefore | crates/core/src/hosts.rs:193-235 | a name that shares no line with a managed one keeps its meaning |
| HostsMeaning.CommentDoesNotCount | crates/core/src/hosts.rs:99-105 | in any file, a line none of whose names is managed stays in its place and keeps deciding its names, whatever its comment says |
| HostsMeaning.ManagedNamesLeaveMain | crates/core/src/hosts.rs:193-235 | no line of the main part names a host that an entry manages, even an entry without an address |
| HostsMeaning.UnmanagedReturns | crates/core/src/hosts.rs:216-232 | a line of the user's that no entry manages any longer is back in the main part after the next update, wherever it was |
| HostsMeaning.RemoveRestoresMeaning | crates/core/src/hosts.rs:272-320 | after the following removal a name resolves as in the original under the same exact condition; managed names always do, and so do names that share no line with one |
| DnsCodec.BuildAQuery | crates/core/src/dns.rs:732-792 | the query is written exactly when it fits; too large is reported only when the name leaves no room at all - one to four bytes short, the writes behind it run off the buffer |
| DnsCodec.QueryBytes | crates/core/src/dns.rs:739-792 | the fixed bytes of a query: recursion desired, one question, class IN, type 1 or 28 |
| DnsCodec.LabelsSize | crates/core/src/dns.rs:763-776 | the labels of a name take one byte more than the name, so a query takes 18 bytes more |
| DnsCodec.LongNameRunsOffTheBuffer | crates/core/src/dns.rs:798-807 | a name of 495 bytes with labels of at most 63 runs off the buffer of 512 bytes |
| DnsCodec.WriteLabel | crates/core/src/dns.rs:763-776 | one length byte and one label, or a refusal at the first byte that does not fit |
| DnsCodec.ParseAResponse | crates/core/src/dns.rs:842-890 | total on all byte strings: an error exactly for messages without a header, else addresses and lowest lifetime |
| DnsCodec.Skip | crates/core/src/dns.rs:847-851 | labels are skipped up to a zero byte |
| DnsCodec.JoinSplit | crates/core/src/dns.rs:763-763 | splitting at dots and joining is the identity |
| DnsCodec.LabelsReadBack | crates/core/src/windivert.rs:288-303 | labels of 1 to 255 bytes read back |
| DnsCodec.QuestionReadsBackIffSized | crates/core/src/dns.rs:732-792 | the question reads back as the same host exactly when every label has 1 to 255 bytes |
| DnsCodec.NameIsSkippedIffPlain | crates/core/src/dns.rs:859-867 | skipping an answer name lands behind it exactly when it is a pointer alone or has no pointer |
| DnsCodec.RecordReadsBack | crates/core/src/dns.rs:868-886 | type, lifetime and data of one record, and where it ends |
| DnsCodec.RecordsReadBack | crates/core/src/dns.rs:855-887 | all records of the answer section, in order |
| DnsCodec.ResponseReadsBack | crates/core/src/dns.rs:842-890 | for every record list with plain names the result is the addresses of the asked type in order and their lowest lifetime, whatever follows |
| DnsCodec.LowestOfIsLowest | crates/core/src/dns.rs:854-889 | the lowest lifetime bounds every record of the type and is one of them |
| DnsCodec.OtherTypesReportNothing | crates/core/src/dns.rs:868-890 | records of other types give no address and no lifetime |
| DnsCodec.LabelsBeforePointerAreLost | crates/core/src/dns.rs:859-867 | a response whose answer name is a label and a pointer: its address is lost |
| DnsIntercept.ModifyDnsPacket | crates/core/src/windivert.rs:246-412 | decision, rewrite, new length, flags; nothing changes when the packet is not answered |
| DnsIntercept.FindUdp | crates/core/src/windivert.rs:252-278 | where the UDP header is, with the length and protocol checks |
| DnsIntercept.FindQuery | crates/core/src/windivert.rs:252-350 | all checks before the first write |
| DnsIntercept.ScanQuestion | crates/core/src/windivert.rs:288-307 | labels up to a zero byte, then the type |
| DnsIntercept.WritePayload | crates/core/src/windivert.rs:351-391 | payload, IP header and UDP header are rewritten in this order |
| DnsIntercept.WriteV4Header | crates/core/src/windivert.rs:356-368 | addresses swapped, total length and checksum set |
| DnsIntercept.WriteV6Header | crates/core/src/windivert.rs:369-380 | addresses swapped, payload length set |
| DnsIntercept.WriteUdpHeader | crates/core/src/windivert.rs:384-391 | ports swapped, length set, checksum cleared |
| DnsInterceptLaws.RewriteAnswers | crates/core/src/windivert.rs:351-391 | swapped addresses and ports, lengths that agree, a header that sums to ones, nothing changed behind the answer |
| DnsInterceptLaws.AnsweredWithLoopback | crates/core/src/windivert.rs:325-346 | a question of type 1 is answered with 127.0.0.1, of type 28 with ::1, for 300 s, as this repository's response parser reads it; the answer is a response without error |
| DnsInterceptLaws.AnsweredIff | crates/core/src/windivert.rs:252-350 | answered are exactly standard queries in UDP over IPv4 or IPv6 for an address of a covered host, if the buffer has room |
| DnsInterceptLaws.AnswerRepeatsQuestion | crates/core/src/windivert.rs:327-334 | transaction id and question are those of the query |
| DnsInterceptLaws.SecondPassLeavesAlone | crates/core/src/windivert.rs:280-284 | a second pass over a rewritten packet, with any patterns, leaves it alone |
| DnsInterceptLaws.LabelsAreLabelBytes | crates/core/src/windivert.rs:288-303 | the question that was read is what the label writer writes |
| DnsInterceptLaws.ReplyIsResponse | crates/core/src/windivert.rs:325-346 | the payload is a one-question response with one answer that points at the question |
| DnsInterceptLaws.OwnQueryIsAnswered | crates/core/src/dns.rs:790-797 | a query this program writes, for a covered host, is recognised with exactly that host and type, so over UDP it would be answered with this machine's address |
| DnsInterceptLaws.FlagsOfAnswer | crates/core/src/windivert.rs:393-410 | marked as injected, outbound exactly for loopback traffic, the family bit of the answer, every other bit kept |
| Checksum.SumWords | crates/core/src/windivert.rs:448-457 | the 16-bit words are summed without 32-bit overflow |
| Checksum.IpChecksum | crates/core/src/windivert.rs:448-462 | the folding loop ends and yields the complement of the folded sum |
| Checksum.WordSumBound | crates/core/src/windivert.rs:448-457 | the sum is at most 65535 per word |
| Checksum.FoldFacts | crates/core/src/windivert.rs:458-460 | folding keeps the sum modulo 65535 and is zero only for zero |
| Checksum.ChecksummedHeaderFoldsToOnes | crates/core/src/windivert.rs:365-367 | for every header content and length the checksummed header folds to 0xFFFF |
| Checksum.OnesSum | crates/core/src/windivert.rs:448-457 | words of ones reach the bound, so one more word than `MAX_SUMMED` allows would overflow |
| DnsCache.CacheTtl | crates/core/src/dns.rs:172-178 | the reported lifetime up to 594 s, and 594 s if none was reported |
| DnsCache.PrunedIs | crates/core/src/dns.rs:203-213 | a table of 1024 entries drops exactly those whose lifetime is over, a smaller one none |
| DnsCache.Cache.Get | crates/core/src/dns.rs:182-192 | a fresh entry is served, an expired one is dropped |
| DnsCache.Cache.Put | crates/core/src/dns.rs:198-214 | an empty answer is not stored; at 1024 entries the expired ones go first |
| DnsCache.Cache.DropExpired | crates/core/src/dns.rs:203-212 | exactly the expired entries are removed |
| DnsCache.Cache.Resolve | crates/core/src/dns.rs:538-580 | a hit is served unchanged; on a miss the answer is stored for its own lifetime and returned |
| DnsCache.CacheAgrees | crates/core/src/dns.rs:182-214 | after any trace the cache holds only latest entries and misses only expired ones |
| DnsCache.AnswersLikeUnboundedMap | crates/core/src/dns.rs:182-214 | under a non-decreasing clock every lookup of every trace answers as a map that never evicts |
| DnsCache.ServedAnswersAreYoung | crates/core/src/dns.rs:172-214 | a served answer is non-empty, the last stored under the same host, resolver and type, and younger than 594 s |
| DnsCache.LookupsAreInvisible | crates/core/src/dns.rs:182-192 | a lookup changes no later answer |
| DnsCache.FreshEntriesStay | crates/core/src/dns.rs:203-213 | fresh entries are never dropped, so 1024 is no hard bound |
| AgentSocks.ConnectSocks4 | crates/core/src/agent.rs:142-192 | the SOCKS4/4a exchange: what is sent, what is consumed, how it ends |
| AgentSocks.Socks4GrantedIff | crates/core/src/agent.rs:170-192 | granted is exactly an eight-byte reply whose second byte is 90 |
| AgentSocks.Socks5GrantedOnlyIf | crates/core/src/agent.rs:204-342 | granted only if the agent said so in every message, and then exactly its messages are used up |
| AgentSocks.OfferIs | crates/core/src/agent.rs:200-275 | which methods are offered, and exactly which users, passwords and hosts cannot be sent |
| AgentSocks.RequestBytes | crates/core/src/agent.rs:150-285 | the bytes of the requests: version, command, address, and the port with its high byte first |
| AgentSocks.Socks4ReadsBackIff | crates/core/src/agent.rs:499-521 | the peer decodes the same target, port and user exactly when no field has a zero byte and the target is not 0.0.0.1 |
| AgentSocks.ConnectSocks5 | crates/core/src/agent.rs:196-342 | the SOCKS5 exchange: what is sent, what is consumed, how it ends |
| AgentSocks.RequestTunnel | crates/core/src/agent.rs:275-342 | connect request and reply, with the bound address drained |
| AgentSocks.TunnelStartsAtPayload | crates/core/src/agent.rs:302-342 | for every reply address form, with or without authentication, exactly the agent's bytes are used up |
| AgentSocks.Socks5ReadsBack | crates/core/src/agent.rs:525-554 | the peer decodes the same target and port from every request |
| AgentSocks.AuthReadsBack | crates/core/src/agent.rs:233-244 | the peer decodes the same user name and password |
| AgentHttp.ReadHttpHead | crates/core/src/agent.rs:350-374 | an answer head of at most 8192 bytes, and exactly its bytes |
| AgentHttp.ConnectHttp | crates/core/src/agent.rs:105-138 | the CONNECT exchange: what is sent, what is consumed, how it ends |
| AgentHttp.HttpGrantedIff | crates/core/src/agent.rs:127-137 | granted is exactly a head of at most 8192 bytes that starts with status 200 in HTTP/1.1; what else ends how |
| AgentHttp.ConnectReadsBack | crates/core/src/agent.rs:114-125 | a reader of HTTP requests finds the tunnel that was asked for, unless the head exceeds its limit |
| AgentHttp.AuthorityReadsBack | crates/core/src/agent.rs:384-389 | host and port read back from the authority, bracketed or not |
| AgentHttp.CredentialsReadBackIff | crates/core/src/agent.rs:378-380 | the agent decodes the credentials; they split into user and password exactly when the user name has no colon |
| AgentHttp.HttpTunnelStartsAtPayload | crates/core/src/agent.rs:127-137 | a granting answer is used up to its empty line |
| Base64.DecodeEncode | crates/core/src/agent.rs:378-380 | decoding undoes encoding for every byte string |
| Base64.Alphabet | crates/core/src/agent.rs:378-380 | the alphabet is that of RFC 4648 section 4 |
| Base64.Vectors | crates/core/src/agent.rs:378-380 | test vectors of RFC 4648 section 10 |
| DomainMatch.CreatePac | crates/core/src/sysproxy.rs:373-418 | the script holds one rule per non-blank pattern, in order, in both forms |
| DomainMatch.ScriptIs | crates/core/src/sysproxy.rs:373-418 | the text of the script: each rule in both forms leads to the proxy, the rest goes directly |
| DomainMatch.PatternCharacters | crates/core/src/sysproxy.rs:381-408 | what the characters of a shell pattern match |
| DomainMatch.RoutedIffIntercepted | crates/core/src/windivert.rs:313-320 | for well-formed patterns a host is PAC-routed iff its DNS queries are intercepted |
| DomainMatch.AcceleratedIffInterceptedOrInsideLabel | crates/core/src/fwd.rs:563-573 | a host is accelerated exactly when it is intercepted or a `*.` pattern ends it inside a label |
| DomainMatch.BarePatternsAgree | crates/core/src/fwd.rs:563-573 | with bare patterns only, all three agree |
| DomainMatch.InterceptedIff | crates/core/src/windivert.rs:313-320 | interception in plain terms, for every pattern and name |
| DomainMatch.AcceleratedIff | crates/core/src/fwd.rs:563-573 | acceleration in plain terms, for every pattern and host |
| DomainMatch.DomainMatchesIff | crates/core/src/fwd.rs:536-552 | a table pattern is the host, or a star and the end of it; case, blanks and dots behind the star do not count |
| DomainMatch.DotsAreTrimmed | crates/core/src/fwd.rs:549-549 | dots behind the star do not count |
| DomainMatch.StarReachesInsideLabel | crates/core/src/fwd.rs:545-551 | `*.x.com` accelerates `ax.com`, which is not intercepted |
| DomainMatch.GlobOfStar | crates/core/src/sysproxy.rs:400-408 | a `*` in front of plain text matches exactly the texts that end with it |
| DomainMatch.ForwardFor | crates/core/src/fwd.rs:620-639 | the running best is the first entry that no matching entry beats |
| DomainMatch.BestIsUnbeaten | crates/core/src/fwd.rs:620-639 | the chosen entry matches and is beaten by none; there is one as soon as any matches |
| DomainMatch.OrderFreeIffNoTie | crates/core/src/fwd.rs:611-639 | for every table and host the chosen entry is the same in every iteration order exactly when no two distinct matching entries are both unbeaten |
| DomainMatch.NameIsOrderFreeIffNoTie | crates/core/src/fwd.rs:611-639 | the same for the substitute name: exactly when no two unbeaten matching entries have different names |
| DomainMatch.WellFormedKeysDoNotTie | crates/core/src/fwd.rs:611-619 | well-formed keys, each in the table once, never tie for a host name |
| DomainMatch.TieDependsOnOrder | crates/core/src/fwd.rs:611-639 | two wildcards of one length tie, and then the order decides |

## Left out

- Sockets, TLS handshakes, certificates and the verification of server names: a dial is an outcome.
- Wall-clock time and logging: a timeout is an event that may come; the cache, the race and the pool take
  the time as a number.
- DNS over HTTPS, its JSON, the system resolver and the choice among resolvers: any address list may come.
- The driver interface of the interceptor, the registry, file encodings and the read-only attribute: the
  model starts from a buffer, a table or decoded lines.
- The second race inside the dial loop (crates/core/src/mitm.rs:1526-1611): it cannot be reached, because its
  flag is set exactly when the hedged race, which returns first, is not taken (lines 1309-1310, 1431-1432).
- Which idle connections a request may reuse (identity and age): the parameter `allowed` of
  `Upstream.UpstreamPool.Take`.
- The bookkeeping of the last good endpoint and of traffic statistics: the last good endpoint is an input
  of the dial run.
- The user interface, the loader, settings, built-in data, warnings and the start and stop of services.
- UTF-8 and Unicode case: text is ASCII; a label byte above 127 stands for the character of that code,
  where the program decodes UTF-8 and replaces what is invalid.
- Allocation failure (`try_reserve`) and what a failed write has already sent.
- Plain HTTP forwarding, PAC serving and the manifest gates around `DomainMatch`: thin wrappers.
- DnsInterceptLaws.RewriteAnswers: requires an IPv4 header of at least five words, which the program does
  not check; shorter ones violate RFC 791 and make the header fields overlap.
- DnsIntercept.ModifyDnsPacket: the buffer has at most 65535 bytes, as the one its caller allocates, so
  that no 16-bit length is cut.
- Checksum.IpChecksum: requires at most 131074 bytes, the most a 32-bit sum holds; its caller passes at
  most 60.
- DomainMatch.RoutedIffIntercepted: the browser's `shExpMatch` is modelled as its documentation describes
  it; quoting inside the script is not modelled.
- HedgedRace.HedgedAttempts: aborted candidates are not followed further; their connections are dropped.
- TunnelRelay.Relay: the two pumps take turns at their await points, as in one task; bytes a failed write
  left in the middle are an arbitrary prefix.
- Http2Leg.Respond: the pipe between the two legs is represented by the bytes that pass through it.
- Http2Path.ForwardToHttp2: the two legs run one after the other, where the program runs them side by side; what
  one leg has written when the other gives up may be any beginning of it.
- Http2Leg.BuildHead: a header that the HTTP library refuses (then the stream is dropped) is not modelled.
- HostsFile.HostsStore.Write: the read-only attribute, which the program clears and restores, and I/O failures
  are not modelled; the file is the text last written.
- FallbackLaws.WrittenAtMostOnce: counts the dial run; with an idle connection in front the exact count is
  FallbackLaws.WrittenTwiceIffUnvouched.
