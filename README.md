# sentinel_tunnel: master-address discovery, modelled in Dafny

sentinel_tunnel asks Redis Sentinel nodes for the current master of a
named database. This project models the two sequential cores of that
discovery and proves properties about them:

- **The sentinel session** (`st_sentinel_connection/st_sentinel_connection.go`).
  It encodes the `SENTINEL get-master-addr-by-name <name>` request as a
  RESP multi-bulk. It parses the multi-bulk reply line by line from a
  buffered reader, reporting either the strings or an error plus a
  "client closed" flag. It sweeps the ordered address list for the first
  sentinel that dials. Construction succeeds only if that sweep does. The
  serving loop answers a caller with `net.JoinHostPort(addr[0], addr[1])`.
- **The resolver** (`cmd/resolver/resolver.go`). It asks an ordered list
  of sentinel clients in turn, and the first that answers wins. It joins
  the reply with ":". When its flag is set, it replaces the first
  occurrence of `192.168.1` with `192.168.2`.

Files:

- `wrappers.dfy`: `Option` and `Result`.
- `text.dfy` (module `Text`): the Go library calls the core relies on.
  These are `%d` formatting, `strconv.Atoi` (its error ignored, with the
  int64 clamping of a 64-bit platform), `strings.Join`, `strings.Index`,
  `strings.Replace(s, old, new, 1)` and `net.JoinHostPort`.
- `resp.dfy` (module `Resp`): the wire format.
  - Request bytes.
  - The cutting of a byte stream into `ReadLine` lines.
  - The reference parser `ParseReply` over a sequence of lines.
  - Its properties.
- `sentinel.dfy` (module `Sentinel`): the session as classes.
  - `LineReader` is a cursor over the lines the peer sends.
  - `BufWriter` is the buffered writer.
  - `SentinelConnection` holds the address list, the live connection, the
    reader and the writer.
  - The serving loop's per-request decision is modelled as a function.
- `resolver.dfy` (module `Resolution`): the `Resolver` class, its
  fallback loop, and the address rewrite.

The network is an oracle.

- For the session, a `Peer` per address says three things: whether
  dialling succeeds, which lines that sentinel would send (a `None` line
  is a read error, such as EOF), and whether it accepts written bytes.
- For the resolver, a `SentinelClient` is the function from a database
  name to what go-redis's `GetMasterAddrByName(name).Result()` returns:
  the reply parts or an error.

Each imperative method is proved against a specification function:

- `SentinelConnection.ParseResponse` against `ParseReply`.
- `SentinelConnection.ReadBulks` against `ParseBulks`.
- `Resolver.Resolve` against `Lookup`.

The properties the source promises are then proved about those functions
as lemmas.

Three behaviours of the serving loop, as the code has them:

- The "failed to retrieve" reply goes to the caller exactly when the
  parser says the client is *not* closed.
- A failed reconnection sweep sends
  `failed to connect to any of the sentinel services`. The text
  `all sentinels failed` is the error of a lookup made without a writer,
  and of a resolver whose sources all fail.
- Framing errors and the null reply sweep for a new connection, just as
  a closed client does: every error outcome, and only an error outcome,
  makes the loop reconnect (`SweepOnlyOnError`).

Edge cases the parser ignores are modelled as explicit outcomes:

- A multi-bulk count below -1 makes Go's `make` panic. This is the
  outcome `Panicked`.
- A successful reply with fewer than two elements makes the serving loop
  panic at `addr[0]` or `addr[1]`. This is the worker step `Crash`.
- A malformed count or bulk length reads as 0, as `strconv.Atoi` does with
  its error ignored (`AtoiMalformed`). A malformed count therefore parses
  as an empty success (`MalformedCountIsEmpty`). An overflowing one is
  clamped to the int64 range.

## Model

| member | source | states |
|---|---|---|
| Text.Itoa | st_sentinel_connection/st_sentinel_connection.go:84 | the `%d` rendering of a length is a non-empty string of decimal digits |
| Text.ScanUint | st_sentinel_connection/st_sentinel_connection.go:44 | the digit scan behind Atoi; a non-digit met before any overflow is a syntax error, which `ScanUintNonDigit` states |
| Text.ScanUintNonDigit | st_sentinel_connection/st_sentinel_connection.go:44 | a scan that reaches a non-digit without overflowing is a syntax error, whatever follows |
| Text.Atoi | st_sentinel_connection/st_sentinel_connection.go:44 | the count Atoi yields, with its error ignored, always lies in the int64 range |
| Text.AtoiMalformed | st_sentinel_connection/st_sentinel_connection.go:44 | a count or length with a non-digit before any overflow reads as 0 |
| Text.AtoiItoa | st_sentinel_connection/st_sentinel_connection.go:60 | reading back a rendered length gives that length, for every length up to the int64 maximum |
| Text.Join | cmd/resolver/resolver.go:33 | `strings.Join`; its property for a two-part reply is `JoinPair` |
| Text.JoinPair | cmd/resolver/resolver.go:33 | joining a two-part reply with ":" puts exactly one separator between the parts |
| Text.IndexOf | cmd/resolver/resolver.go:38 | the index found is an occurrence with no earlier occurrence; no index means the pattern does not occur |
| Text.ReplaceFirst | cmd/resolver/resolver.go:38 | `strings.Replace` with count 1; its properties are `ReplaceFirstNoMatch`, `ReplaceFirstOnlyFirst`, `ReplaceFirstSameLength` and `ReplaceFirstWindow` |
| Text.ReplaceFirstNoMatch | cmd/resolver/resolver.go:38 | replacing a pattern that does not occur is the identity |
| Text.ReplaceFirstOnlyFirst | cmd/resolver/resolver.go:38 | only the first occurrence is replaced: the prefix before it holds no occurrence and the rest after it is kept verbatim |
| Text.ReplaceFirstSameLength | cmd/resolver/resolver.go:38 | replacing by an equally long string keeps the length |
| Text.ReplaceFirstWindow | cmd/resolver/resolver.go:38 | with an equally long replacement, each character outside the first occurrence's window is unchanged |
| Text.JoinHostPort | st_sentinel_connection/st_sentinel_connection.go:130 | `net.JoinHostPort`, bracketing a host that holds ':'; `JoinHostPortIsJoin` relates it to `Join` |
| Text.JoinHostPortIsJoin | st_sentinel_connection/st_sentinel_connection.go:130 | for a host without ':', JoinHostPort equals joining host and port with ":" |
| Resp.RequestParts | st_sentinel_connection/st_sentinel_connection.go:78-87 | the eight strings written for a request; `RequestBytes` spells out their concatenation |
| Resp.Request | st_sentinel_connection/st_sentinel_connection.go:78-103 | the bytes sent for a lookup; `RequestIsCommandArray` and `RequestParsesBack` state that they are the RESP array of the three words |
| Resp.RequestBytes | st_sentinel_connection/st_sentinel_connection.go:78-87 | the request for `name` is exactly `*3`, `$8`, `sentinel`, `$23`, `get-master-addr-by-name`, `$<len(name)>`, `name`, each followed by CRLF |
| Resp.RequestIsCommandArray | st_sentinel_connection/st_sentinel_connection.go:78-87 | those bytes are the RESP array of the three words, so the declared lengths 3, 8 and 23 match |
| Resp.SplitLines | st_sentinel_connection/st_sentinel_connection.go:34 | the stream cut into `ReadLine` lines, LF or CRLF stripped; `SplitLine` and `SplitEncoded` state what it yields |
| Resp.SplitLine | st_sentinel_connection/st_sentinel_connection.go:34 | a CR/LF-free line ended by CRLF is read back as itself, and reading resumes right after it |
| Resp.SplitEncoded | st_sentinel_connection/st_sentinel_connection.go:48-71 | an encoded multi-bulk of CR/LF-free strings arrives as the count line and then a header and a content line per element |
| Resp.BulkAt | st_sentinel_connection/st_sentinel_connection.go:50-68 | one element read; `ParseBulksSound`, `ParseBulksComplete` and `ParseBulksFirstBroken` state what it decides |
| Resp.ParseBulks | st_sentinel_connection/st_sentinel_connection.go:48-71 | the element loop; `ParseBulksSound`, `ParseBulksComplete`, `ParseBulksFirstBroken` and `ParseBulksFailedFlag` state its results |
| Resp.ParseReply | st_sentinel_connection/st_sentinel_connection.go:32-72 | `parseResponse`; `ParseReplyDone`, `ParseReplyFirstLine`, `ParseReplyFailedFlag` and `DecodeEncode` state its results |
| Resp.ParseReplyCount | st_sentinel_connection/st_sentinel_connection.go:44-49 | after a `*n` first line with n >= 0, the reply is exactly n bulk strings read from the next line |
| Resp.ParseBulksSound | st_sentinel_connection/st_sentinel_connection.go:48-71 | a successful parse of n elements has n elements, each the content of a well-formed bulk string, and consumes 2n lines |
| Resp.ParseBulksComplete | st_sentinel_connection/st_sentinel_connection.go:48-71 | well-formed bulk strings are parsed to exactly their contents, in order |
| Resp.ParseReplyDone | st_sentinel_connection/st_sentinel_connection.go:32-72 | the parse succeeds with `ys` if and only if the first line is `*` with count len(ys) and the bulk strings that follow hold `ys`, and then 1 + 2 len(ys) lines are read |
| Resp.ParseBulksFirstBroken | st_sentinel_connection/st_sentinel_connection.go:49-68 | after well-formed elements, the first broken bulk string decides the error, whether the client is closed, and how many lines were read |
| Resp.ParseBulksFailedFlag | st_sentinel_connection/st_sentinel_connection.go:50-67 | an element failure reports "client closed" exactly for a failed or empty read; it is one of the three element errors and never a panic |
| Resp.ParseReplyFailedFlag | st_sentinel_connection/st_sentinel_connection.go:32-72 | every parse error reports "client closed" exactly when a line read failed or was empty, and is never a request-side error |
| Resp.ParseReplyFirstLine | st_sentinel_connection/st_sentinel_connection.go:34-48 | a missing or empty first line means a closed client; one without '*' is the mbulk error; the null reply happens exactly for a count of -1; a panic happens exactly for a count below -1 |
| Resp.NullReply | st_sentinel_connection/st_sentinel_connection.go:44-47 | `*-1` is the "null request" error on a usable connection, whatever follows |
| Resp.MalformedCountIsEmpty | st_sentinel_connection/st_sentinel_connection.go:44-49 | a count line `*x` reads as count 0, so the reply is an empty success after one line |
| Resp.FramingExample | st_sentinel_connection/st_sentinel_connection.go:57-58 | an element header without '$' is the bulk error on a usable connection, after two lines |
| Resp.PeerClosedExample | st_sentinel_connection/st_sentinel_connection.go:54-55 | an empty element header is a read failure with the client closed |
| Resp.WrongSizeExample | st_sentinel_connection/st_sentinel_connection.go:60-67 | a content line shorter than declared is "wrong bulk size" on a usable connection, after three lines |
| Resp.ParseReplyLines | st_sentinel_connection/st_sentinel_connection.go:32-72 | the reply lines of a list parse back to that list, reading all of them |
| Resp.ParseWellFormed | st_sentinel_connection/st_sentinel_connection.go:44-71 | a `*n` line followed by n well-formed bulk strings parses to their contents, ending just past them |
| Resp.DecodeEncode | st_sentinel_connection/st_sentinel_connection.go:32-72 | round trip: an encoded multi-bulk of CR/LF-free strings, cut into lines, parses back to the same list |
| Resp.RequestParsesBack | st_sentinel_connection/st_sentinel_connection.go:78-87 | the request itself is well-framed: it parses back to the three words |
| Sentinel.FirstReachable | st_sentinel_connection/st_sentinel_connection.go:137-154 | the first address in list order that dials: it dials and none before it does |
| Sentinel.LineReader.ReadLine | st_sentinel_connection/st_sentinel_connection.go:34 | each call returns the next line, or a read error past the end, and advances by one line |
| Sentinel.LineReader.ReadBulk | st_sentinel_connection/st_sentinel_connection.go:50-68 | one element read equals `BulkAt` at the cursor, and the cursor moves by the lines it consumed |
| Sentinel.BufWriter.WriteString | st_sentinel_connection/st_sentinel_connection.go:89-93 | a write appends to the buffer unless the writer has already failed |
| Sentinel.BufWriter.Flush | st_sentinel_connection/st_sentinel_connection.go:96-101 | a flush hands the buffer to the peer; it fails, and the writer then stays failed, when the peer refuses a non-empty buffer |
| Sentinel.SentinelConnection.constructor | st_sentinel_connection/st_sentinel_connection.go:167-174 | a new session keeps its addresses and has no connection, reader or writer |
| Sentinel.SentinelConnection.Reconnect | st_sentinel_connection/st_sentinel_connection.go:136-158 | returns true iff some address dials; on true it adopts the first such address with a fresh reader and writer on it; on false no connection is left; a stale connection is closed once |
| Sentinel.SentinelConnection.ParseResponse | st_sentinel_connection/st_sentinel_connection.go:32-72 | the outcome and the reader's new position are those of `ParseReply` on the lines from the old position |
| Sentinel.SentinelConnection.ReadBulks | st_sentinel_connection/st_sentinel_connection.go:48-71 | filling `ret` element by element gives `ParseBulks` from the old position |
| Sentinel.SentinelConnection.WriteAll | st_sentinel_connection/st_sentinel_connection.go:88-95 | writing the parts one by one buffers their concatenation, unless the writer has already failed |
| Sentinel.SentinelConnection.GetMasterAddrByName | st_sentinel_connection/st_sentinel_connection.go:74-104 | without a writer it is the fault whose text is "all sentinels failed", with the client closed; a failed write or flush is a closed-client error that reads nothing; otherwise exactly the request bytes are sent and the reply is parsed |
| Sentinel.NewSentinelConnection | st_sentinel_connection/st_sentinel_connection.go:166-183 | construction fails with "could not connect to any sentinels" exactly when no address dials; otherwise the session is connected to the first address that does, with a fresh reader at its first line and a fresh, empty, unfailed writer |
| Sentinel.ServeOutcome | st_sentinel_connection/st_sentinel_connection.go:106-133 | the loop's decision for one request; `SweepOnlyOnError`, `FailureReplyCount`, `NullReplySweeps`, `ShortReplyCrashes` and `AnswerIsHostColonPort` state it |
| Sentinel.SweepOnlyOnError | st_sentinel_connection/st_sentinel_connection.go:109-127 | the reconnection outcome matters exactly for an error outcome, and a successful sweep then re-submits the request |
| Sentinel.ShortReplyCrashes | st_sentinel_connection/st_sentinel_connection.go:129-131 | a successful reply with fewer than two elements is a crash of the loop |
| Sentinel.FailureReplyCount | st_sentinel_connection/st_sentinel_connection.go:108-127 | on an error: a "failed to retrieve" reply exactly when the client is not closed, then "failed to connect" if the sweep fails or a re-submission if it succeeds |
| Sentinel.NullReplySweeps | st_sentinel_connection/st_sentinel_connection.go:109-117 | a null reply is answered with "failed to retrieve" and still triggers a reconnection sweep: a successful sweep re-submits, a failed one adds "failed to connect" |
| Sentinel.AnswerIsHostColonPort | st_sentinel_connection/st_sentinel_connection.go:129-131 | a sentinel that answers `host` and `port` makes the loop reply exactly `host:port` |
| Resolution.RewriteIp | cmd/resolver/resolver.go:38 | the address rewrite; its properties are the `Rewrite…` lemmas below |
| Resolution.Address | cmd/resolver/resolver.go:33-38 | the address built from one reply; `AddressOfPair` states it for a host and a port |
| Resolution.Lookup | cmd/resolver/resolver.go:26-47 | what `Resolve` returns, source by source; `LookupFirstSuccess` states it |
| Resolution.FirstAnswer | cmd/resolver/resolver.go:27-31 | the index of the first source that answers; every earlier source errs |
| Resolution.LookupFirstSuccess | cmd/resolver/resolver.go:27-46 | the lookup succeeds iff some source answers, and then it is the address from the first such source; if all fail it is ("", "all sentinels failed") |
| Resolution.Resolver.constructor | cmd/resolver/resolver.go:19-24 | NewResolver keeps the source list and the rewrite flag as given |
| Resolution.Resolver.Resolve | cmd/resolver/resolver.go:26-47 | the result is `Lookup`; a ghost log, extended at each `GetMasterAddrByName` call, shows each source asked once in list order: on success exactly those up to the first that answers, on failure all of them, the result then being ("", "all sentinels failed") |
| Resolution.RewriteFirstOnly | cmd/resolver/resolver.go:37-38 | the rewrite changes only the first `192.168.1`, putting `192.168.2` there, and keeps everything else |
| Resolution.RewriteNoMatch | cmd/resolver/resolver.go:38 | an address without `192.168.1` is returned unchanged |
| Resolution.RewriteShape | cmd/resolver/resolver.go:38 | the rewrite keeps the length, and any character it changes was a '1' that becomes a '2' |
| Resolution.RewriteLeading | cmd/resolver/resolver.go:38 | an address starting with `192.168.1` gets `192.168.2` in its place and keeps the rest |
| Resolution.RewriteIsTextual | cmd/resolver/resolver.go:38 | the match is textual: `192.168.10.5:6379` becomes `192.168.20.5:6379` |
| Resolution.RewriteExample | cmd/resolver/resolver.go:37-38 | `192.168.1.42:6379` becomes `192.168.2.42:6379` |
| Resolution.AddressOfPair | cmd/resolver/resolver.go:33 | with the rewrite off, the reply (host, port) gives `host:port` |
| Resolution.FallbackExample | cmd/resolver/resolver.go:27-43 | a first source that errs is skipped, and the second source's `["10.0.0.5", "6379"]` gives `10.0.0.5:6379` |

## Left out

- Concurrency. The request and reply channels, the worker goroutine, its
  recursive re-spawn on reconnection and the re-submission through
  `GetAddressByDbName` (st_sentinel_connection.go:106-134, 160-164) are
  not modelled as processes. Only the per-request decision
  (`ServeOutcome`) is modelled: which replies are sent and whether the
  request is re-submitted. Which waiting party receives a reply is a
  matter of scheduling, and so is not modelled.
- Real I/O. TCP dialling, the 300 ms dial timeout and socket `Close` are
  the `Peer` oracle. Closed connections are recorded by address only.
- Logging through `st_logger` and `zerolog` has no functional effect.
- `bufio` details. A writer automatically flushes when its 4096-byte
  buffer fills; the model buffers without limit. A short or partial
  write is modelled as a refusal that sends nothing. `ReadLine`'s
  `isPrefix` result for lines longer than the buffer is ignored, as the
  code ignores it.
- Sentinel.SentinelConnection.GetMasterAddrByName: a failed write or
  flush returns the network's own error. The model reports it as the
  fault `WriteFailed` without that error text.
- `make([]string, n)` fails for a count too large to allocate. The model
  allocates every non-negative count.
- Text.Atoi: Go's `int` is taken as 64-bit. The short-input fast path and
  `ParseInt` give the same value on every input, so only one path is
  modelled.
- Characters stand for bytes. Line lengths are counted in characters,
  so a multi-byte UTF-8 string has no separate byte length here.
- Sentinel.SentinelConnection.Reconnect with an empty address list
  returns false and keeps whatever connection there was. This is stated
  exactly, but it cannot arise from `NewSentinelConnection`, which fails
  on an empty list.
- The go-redis `SentinelClient` is not part of this model. Each source is
  just the answer it gives for a name.
- `cmd/main.go` (startup, configuration, the proxy server) is not part of
  this model.
