/**
 * One reconnecting client to a group of interchangeable sentinel
 * addresses: its line reader and buffered writer, the lookup that writes
 * the request and parses the reply, the failover sweep over the address
 * list, construction, and the per-request decision of the serving loop.
 *
 * The network is an oracle: `Peer` says, per address, whether dialling it
 * succeeds, which lines the sentinel there would send, and whether it
 * accepts bytes.
 */
module Sentinel {
  import opened Wrappers
  import opened Text
  import opened Resp

  /** What dialling one address gives. */
  datatype Peer = Peer(reachable: bool, incoming: seq<Option<string>>, acceptsWrites: bool)

  predicate SomeReachable(peers: seq<Peer>)
  {
    exists i :: 0 <= i < |peers| && peers[i].reachable
  }

  /** The first address, in list order, that dials. */
  function FirstReachable(peers: seq<Peer>): (i: nat)
    requires SomeReachable(peers)
    ensures i < |peers| && peers[i].reachable
    ensures forall j :: 0 <= j < i ==> !peers[j].reachable
  {
    if peers[0].reachable then 0
    else
      assert SomeReachable(peers[1..]) by {
        var k :| 0 <= k < |peers| && peers[k].reachable;
        assert peers[1..][k - 1].reachable;
      }
      FirstReachable(peers[1..]) + 1
  }

  /** A `bufio.Reader` cut into lines: `ReadLine` hands them out one by one. */
  class LineReader {
    const lines: seq<Option<string>>
    var pos: nat

    constructor (lines: seq<Option<string>>)
      ensures this.lines == lines && pos == 0
    {
      this.lines := lines;
      pos := 0;
    }

    /** The next line, or `None` for a read error (past the end: EOF). */
    method ReadLine() returns (line: Option<string>)
      modifies this
      ensures line == ReadAt(lines, old(pos)) && pos == old(pos) + 1
    {
      line := ReadAt(lines, pos);
      pos := pos + 1;
    }

    /**
     * One element of a multi-bulk: a `$<n>` header line and a content line
     * of length `n`. A failed or empty header stops after one line, a
     * header without '$' too; a failed content read or a wrong length
     * stops after two.
     */
    method ReadBulk() returns (step: Step)
      modifies this
      ensures step == BulkAt(lines, old(pos))
      ensures pos == old(pos) + if step.Broken? then step.consumed else 2
    {
      var buf1 := ReadLine();
      if buf1.None? || |buf1.value| == 0 {
        return Broken(ReadFailed, 1);
      }
      if buf1.value[0] != '$' {
        return Broken(NotBulk, 1);
      }
      var bulkSize := Atoi(buf1.value[1..]);
      var buf2 := ReadLine();
      if buf2.None? {
        return Broken(ReadFailed, 2);
      }
      var bulk := buf2.value;
      if |bulk| != bulkSize {
        return Broken(WrongBulkSize, 2);
      }
      step := Bulk(bulk);
    }
  }

  /**
   * A `bufio.Writer` on a connection: `WriteString` buffers, `Flush` hands
   * the buffer to the peer; a failed flush makes every later call fail.
   */
  class BufWriter {
    const peerAccepts: bool
    var buffered: string
    var sent: string
    var failed: bool

    constructor (peerAccepts: bool)
      ensures this.peerAccepts == peerAccepts && buffered == "" && sent == "" && !failed
    {
      this.peerAccepts := peerAccepts;
      buffered, sent, failed := "", "", false;
    }

    method WriteString(s: string) returns (ok: bool)
      modifies this
      ensures ok == !old(failed)
      ensures buffered == if ok then old(buffered) + s else old(buffered)
      ensures sent == old(sent) && failed == old(failed)
    {
      ok := !failed;
      if ok {
        buffered := buffered + s;
      }
    }

    method Flush() returns (ok: bool)
      modifies this
      ensures ok == (!old(failed) && (old(buffered) == "" || peerAccepts))
      ensures ok ==> sent == old(sent) + old(buffered) && buffered == "" && !failed
      ensures !ok ==> sent == old(sent) && buffered == old(buffered) && failed
    {
      if failed {
        return false;
      }
      if buffered == "" {
        return true;
      }
      if !peerAccepts {
        failed := true;
        return false;
      }
      sent := sent + buffered;
      buffered := "";
      ok := true;
    }
  }

  class SentinelConnection {
    const addresses: seq<string>
    /** The address of the live connection, if there is one. */
    var connection: Option<string>
    var reader: LineReader?
    var writer: BufWriter?
    /** The addresses of the connections closed so far, in order. */
    var closed: seq<string>

    /** A reader and a writer exist exactly while a connection is live. */
    ghost predicate Valid()
      reads this
    {
      (connection.Some? <==> reader != null) && (connection.Some? <==> writer != null)
    }

    constructor (addresses: seq<string>)
      ensures Valid() && this.addresses == addresses
      ensures connection == None && reader == null && writer == null && closed == []
    {
      this.addresses := addresses;
      connection, reader, writer, closed := None, null, null, [];
    }

    /**
     * `reconnectToSentinel`: walk the addresses in order, closing a stale
     * connection first, and adopt the first one that dials, with a fresh
     * reader and writer. On failure no connection is left, except for an
     * empty address list, where the loop body never runs and nothing
     * changes.
     */
    method Reconnect(peers: seq<Peer>) returns (ok: bool)
      requires Valid() && |peers| == |addresses|
      modifies this
      ensures Valid()
      ensures ok == SomeReachable(peers)
      ensures ok ==>
        var i := FirstReachable(peers);
        && connection == Some(addresses[i])
        && fresh(reader) && reader.lines == peers[i].incoming && reader.pos == 0
        && fresh(writer) && writer.peerAccepts == peers[i].acceptsWrites
        && writer.buffered == "" && writer.sent == "" && !writer.failed
      ensures !ok && |addresses| > 0 ==> connection == None
      ensures |addresses| == 0 ==>
        connection == old(connection) && reader == old(reader) && writer == old(writer)
      ensures closed == old(closed) +
        if |addresses| > 0 && old(connection).Some? then [old(connection).value] else []
    {
      var i := 0;
      while i < |addresses|
        invariant 0 <= i <= |addresses|
        invariant Valid()
        invariant forall j :: 0 <= j < i ==> !peers[j].reachable
        invariant i > 0 ==> connection == None
        invariant i == 0 ==> connection == old(connection) && reader == old(reader) && writer == old(writer)
        invariant closed == old(closed) + if i > 0 && old(connection).Some? then [old(connection).value] else []
      {
        if connection.Some? {
          closed := closed + [connection.value];
          reader, writer, connection := null, null, None;
        }
        if peers[i].reachable {
          connection := Some(addresses[i]);
          reader := new LineReader(peers[i].incoming);
          writer := new BufWriter(peers[i].acceptsWrites);
          return true;
        }
        i := i + 1;
      }
      return false;
    }

    /**
     * `parseResponse`: read one reply from the reader. The outcome and the
     * reader's new position are those of `ParseReply` on its lines.
     */
    method ParseResponse() returns (result: Outcome)
      requires reader != null
      modifies reader
      ensures (result, reader.pos) == ParseReply(reader.lines, old(reader.pos))
    {
      var start := reader.pos;
      var lines := reader.lines;
      var buf := reader.ReadLine();
      if buf.None? || |buf.value| == 0 {
        assert ParseReply(lines, start) == (Failed(ReadFailed, true), start + 1);
        return Failed(ReadFailed, true);
      }
      if buf.value[0] != '*' {
        assert ParseReply(lines, start) == (Failed(NotMultiBulk, false), start + 1);
        return Failed(NotMultiBulk, false);
      }
      var mbulkSize := Atoi(buf.value[1..]);
      if mbulkSize == -1 {
        assert ParseReply(lines, start) == (Failed(NullRequest, false), start + 1);
        return Failed(NullRequest, false);
      }
      if mbulkSize < -1 {
        assert ParseReply(lines, start) == (Panicked, start + 1);
        return Panicked;
      }
      assert CountLine(lines, start, mbulkSize);
      result := ReadBulks(mbulkSize);
      ParseReplyCount(lines, start, mbulkSize);
    }

    /** The loop of `parseResponse` over the `n` bulk strings of a multi-bulk reply. */
    method ReadBulks(n: nat) returns (result: Outcome)
      requires reader != null
      modifies reader
      ensures (result, reader.pos) == ParseBulks(reader.lines, old(reader.pos), n)
    {
      var start := reader.pos;
      var lines := reader.lines;
      var ret := new string[n];
      var i := 0;
      while i < n
        invariant 0 <= i <= n
        invariant reader.pos == start + 2 * i
        invariant WellFormedBulks(lines, start, ret[..i])
      {
        ghost var done := ret[..i];
        assert |done| == i;
        var step := reader.ReadBulk();
        if step.Broken? {
          ParseBulksFirstBroken(lines, start, n, done, step);
          return Failed(step.fault, step.fault == ReadFailed);
        }
        ret[i] := step.content;
        assert ret[..i + 1] == done + [step.content];
        WellFormedBulksSnoc(lines, start, done, step.content);
        i := i + 1;
      }
      assert ret[..] == ret[..i];
      ParseBulksComplete(lines, start, ret[..]);
      result := Done(ret[..]);
    }

    /** The loop of `WriteString` calls: stop at the first that fails. */
    method WriteAll(parts: seq<string>) returns (ok: bool)
      requires writer != null
      modifies writer
      ensures ok == !old(writer.failed)
      ensures writer.sent == old(writer.sent) && writer.failed == old(writer.failed)
      ensures writer.buffered == if ok then old(writer.buffered) + Concat(parts) else old(writer.buffered)
    {
      var i := 0;
      while i < |parts|
        invariant 0 <= i <= |parts|
        invariant writer.sent == old(writer.sent) && writer.failed == old(writer.failed)
        invariant !writer.failed ==> writer.buffered == old(writer.buffered) + Concat(parts[..i])
        invariant writer.failed ==> writer.buffered == old(writer.buffered)
      {
        ok := writer.WriteString(parts[i]);
        if !ok {
          return;
        }
        ConcatSnoc(parts, i);
        i := i + 1;
      }
      assert parts[..|parts|] == parts;
      ok := !writer.failed;
    }

    /**
     * `getMasterAddrByNameFromSentinel`: without a writer, fail at once as
     * a closed client and touch nothing; otherwise write the request part
     * by part, flush it, and parse the reply. A failed write or flush is
     * reported as a closed client and reads nothing.
     */
    method GetMasterAddrByName(name: string) returns (result: Outcome)
      requires Valid()
      modifies reader, writer
      ensures writer == null ==> result == Failed(NoWriter, true) && Message(result.fault) == "all sentinels failed"
      ensures writer != null && old(writer.failed) ==>
        && result == Failed(WriteFailed, true)
        && writer.sent == old(writer.sent) && writer.buffered == old(writer.buffered) && writer.failed
        && reader.pos == old(reader.pos)
      ensures writer != null && !old(writer.failed) && !writer.peerAccepts ==>
        && result == Failed(WriteFailed, true)
        && writer.sent == old(writer.sent) && writer.buffered == old(writer.buffered) + Request(name)
        && writer.failed && reader.pos == old(reader.pos)
      ensures writer != null && !old(writer.failed) && writer.peerAccepts ==>
        && writer.sent == old(writer.sent) + old(writer.buffered) + Request(name)
        && writer.buffered == "" && !writer.failed
        && (result, reader.pos) == ParseReply(reader.lines, old(reader.pos))
    {
      if writer == null {
        return Failed(NoWriter, true);
      }
      var written := WriteAll(RequestParts(name));
      if !written {
        return Failed(WriteFailed, true);
      }
      var ok := writer.Flush();
      if !ok {
        return Failed(WriteFailed, true);
      }
      result := ParseResponse();
    }
  }

  /**
   * `NewSentinelConnection`: an unconnected session that must reach one
   * of its addresses, or construction fails.
   */
  method NewSentinelConnection(addresses: seq<string>, peers: seq<Peer>)
    returns (conn: SentinelConnection?, err: Option<string>)
    requires |peers| == |addresses|
    ensures err.Some? <==> !SomeReachable(peers)
    ensures err.Some? ==> conn == null && err.value == "could not connect to any sentinels"
    ensures err.None? ==>
      && conn != null && fresh(conn) && conn.Valid()
      && conn.addresses == addresses && conn.closed == []
      && conn.connection == Some(addresses[FirstReachable(peers)])
      && conn.reader != null && fresh(conn.reader)
      && conn.reader.lines == peers[FirstReachable(peers)].incoming && conn.reader.pos == 0
      && conn.writer != null && fresh(conn.writer)
      && conn.writer.peerAccepts == peers[FirstReachable(peers)].acceptsWrites
      && conn.writer.buffered == "" && conn.writer.sent == "" && !conn.writer.failed
  {
    var c := new SentinelConnection(addresses);
    var ok := c.Reconnect(peers);
    if !ok {
      return null, Some("could not connect to any sentinels");
    }
    return c, None;
  }

  // ---------------------------------------------------------------------
  // The serving loop's decision for one request

  /** What the serving loop sends back to a caller: an address or an error text. */
  datatype AddrReply = AddrReply(reply: string, err: Option<string>)

  /**
   * After one lookup: the replies put on the reply channel, and whether the
   * worker, having reconnected, starts a new worker and submits the name
   * once more itself through `GetAddressByDbName`; `Crash` is a runtime
   * panic. Which waiting party receives each reply is left to scheduling.
   */
  datatype WorkerStep = Deliver(replies: seq<AddrReply>, reissue: bool) | Crash

  function RetrieveFailed(name: string): AddrReply
  {
    AddrReply("", Some("failed to retrieve db name from the sentinel, db_name:" + name))
  }

  const ConnectFailed: AddrReply := AddrReply("", Some("failed to connect to any of the sentinel services"))

  /**
   * The serving loop on one lookup outcome. A success sends
   * `JoinHostPort(addr[0], addr[1])` (fewer than two elements panic). A
   * failure sends a "failed to retrieve" error first unless the client
   * closed, then sweeps for a new connection (`reconnected` is its
   * result): on failure it sends "failed to connect", on success it
   * re-issues the request.
   */
  function ServeOutcome(name: string, outcome: Outcome, reconnected: bool): WorkerStep
  {
    match outcome
    case Done(addr) =>
      if |addr| < 2 then Crash else Deliver([AddrReply(JoinHostPort(addr[0], addr[1]), None)], false)
    case Failed(_, clientClosed) =>
      Deliver((if clientClosed then [] else [RetrieveFailed(name)]) +
              (if reconnected then [] else [ConnectFailed]), reconnected)
    case Panicked => Crash
  }

  /**
   * Only an error leads to a reconnection sweep: after a success the sweep
   * result plays no part, after any error it decides whether the request is
   * re-submitted.
   */
  lemma SweepOnlyOnError(name: string, outcome: Outcome)
    ensures outcome.Failed? <==> ServeOutcome(name, outcome, true) != ServeOutcome(name, outcome, false)
    ensures outcome.Failed? ==> ServeOutcome(name, outcome, true).reissue
  {
  }

  /** A reply with fewer than two elements makes the loop panic at `addr[0]` or `addr[1]`. */
  lemma ShortReplyCrashes(name: string, addr: seq<string>, reconnected: bool)
    requires |addr| < 2
    ensures ServeOutcome(name, Done(addr), reconnected) == Crash
  {
  }

  /**
   * Messages per failed request, counting a re-submission as one: a
   * usable-connection error (a framing error or the null reply) yields an
   * error reply and then either a second error reply or a re-submission,
   * two in all; a closed client yields exactly one.
   */
  lemma FailureReplyCount(name: string, f: Fault, clientClosed: bool, reconnected: bool)
    ensures var step := ServeOutcome(name, Failed(f, clientClosed), reconnected);
      && step.Deliver? && step.reissue == reconnected
      && |step.replies| + (if step.reissue then 1 else 0) == (if clientClosed then 1 else 2)
      && (!clientClosed ==> step.replies[0] == RetrieveFailed(name))
      && (!reconnected ==> step.replies[|step.replies| - 1] == ConnectFailed)
  {
  }

  /**
   * A null reply does not close the connection, yet it is answered with
   * an error and is followed by a reconnection sweep whose result decides
   * the rest: a re-submission, or the "failed to connect" error.
   */
  lemma NullReplySweeps(name: string, rest: seq<Option<string>>, reconnected: bool)
    ensures var step := ServeOutcome(name, ParseReply([Some("*-1")] + rest, 0).0, reconnected);
      && step.Deliver? && step.reissue == reconnected
      && step.replies[0] == RetrieveFailed(name)
      && step.replies == if reconnected then [RetrieveFailed(name)] else [RetrieveFailed(name), ConnectFailed]
  {
    NullReply(rest);
  }

  /**
   * End to end: a sentinel answering the two bulk strings `host` and
   * `port` (CR/LF-free, host without ':') makes the loop send back exactly
   * `host:port`.
   */
  lemma AnswerIsHostColonPort(name: string, host: string, port: string)
    requires |host| <= MaxInt64 && |port| <= MaxInt64
    requires LineSafe(host) && LineSafe(port) && ':' !in host
    ensures ServeOutcome(name, ParseReply(SplitLines(EncodeArray([host, port])), 0).0, false)
      == Deliver([AddrReply(host + ":" + port, None)], false)
  {
    DecodeEncode([host, port]);
  }
}
