/**
 * The sentinel wire codec: the multi-bulk (RESP array) framing of the one
 * command the proxy sends, the way `bufio.Reader.ReadLine` cuts the reply
 * into lines, and the reply parser of `parseResponse` as a function of
 * those lines.
 *
 * Strings on the wire are byte strings; a `char` of the model stands for
 * one byte, so `|s|` is Go's `len(s)`.
 */
module Resp {
  import opened Wrappers
  import opened Text

  // ---------------------------------------------------------------------
  // Encoding

  /** A bulk string: `$<len>\r\n<content>\r\n`. */
  function BulkString(s: string): string
  {
    ("$" + Itoa(|s|) + "\r\n") + s + "\r\n"
  }

  function EncodeBulks(xs: seq<string>): string
  {
    if xs == [] then "" else BulkString(xs[0]) + EncodeBulks(xs[1..])
  }

  /** A multi-bulk of bulk strings: `*<count>\r\n` followed by each element. */
  function EncodeArray(xs: seq<string>): string
  {
    "*" + Itoa(|xs|) + "\r\n" + EncodeBulks(xs)
  }

  const Command: string := "sentinel"
  const Subcommand: string := "get-master-addr-by-name"

  /** The strings the lookup hands to `WriteString`, in order. */
  function RequestParts(name: string): seq<string>
  {
    ["*3\r\n", "$8\r\n", "sentinel\r\n", "$23\r\n", "get-master-addr-by-name\r\n",
     "$" + Itoa(|name|) + "\r\n", name, "\r\n"]
  }

  function Concat(parts: seq<string>): string
  {
    if parts == [] then "" else Concat(parts[..|parts| - 1]) + parts[|parts| - 1]
  }

  lemma ConcatSnoc(ps: seq<string>, i: nat)
    requires i < |ps|
    ensures Concat(ps[..i + 1]) == Concat(ps[..i]) + ps[i]
  {
    assert ps[..i + 1][..i] == ps[..i];
  }

  /** The bytes one lookup sends. */
  function Request(name: string): string
  {
    Concat(RequestParts(name))
  }

  /** The request is exactly this byte sequence. */
  lemma RequestBytes(name: string)
    ensures Request(name) ==
      "*3\r\n" + "$8\r\n" + "sentinel\r\n" + "$23\r\n" + "get-master-addr-by-name\r\n" +
      ("$" + Itoa(|name|) + "\r\n") + name + "\r\n"
  {
    Concat8("*3\r\n", "$8\r\n", "sentinel\r\n", "$23\r\n", "get-master-addr-by-name\r\n",
            "$" + Itoa(|name|) + "\r\n", name, "\r\n");
  }

  lemma Concat8(a: string, b: string, c: string, d: string, e: string, f: string, g: string, h: string)
    ensures Concat([a, b, c, d, e, f, g, h]) == a + b + c + d + e + f + g + h
  {
    assert [a][..0] == [];
    assert Concat([a]) == a;
    assert [a, b][..1] == [a];
    assert Concat([a, b]) == a + b;
    assert [a, b, c][..2] == [a, b];
    assert Concat([a, b, c]) == a + b + c;
    assert [a, b, c, d][..3] == [a, b, c];
    assert Concat([a, b, c, d]) == a + b + c + d;
    assert [a, b, c, d, e][..4] == [a, b, c, d];
    assert Concat([a, b, c, d, e]) == a + b + c + d + e;
    assert [a, b, c, d, e, f][..5] == [a, b, c, d, e];
    assert Concat([a, b, c, d, e, f]) == a + b + c + d + e + f;
    assert [a, b, c, d, e, f, g][..6] == [a, b, c, d, e, f];
    assert Concat([a, b, c, d, e, f, g]) == a + b + c + d + e + f + g;
    assert [a, b, c, d, e, f, g, h][..7] == [a, b, c, d, e, f, g];
  }

  lemma ItoaSmall()
    ensures Itoa(3) == "3" && Itoa(8) == "8" && Itoa(23) == "23"
  {
    assert Itoa(23) == Itoa(2) + [DigitChar(3)];
  }

  /**
   * The request is the array encoding of the three-element command
   * `sentinel get-master-addr-by-name <name>`: the lengths 8 and 23 the
   * source writes by hand are the lengths of the two literals.
   */
  lemma RequestIsCommandArray(name: string)
    ensures Request(name) == EncodeArray([Command, Subcommand, name])
  {
    RequestBytes(name);
    var xs := [Command, Subcommand, name];
    var lenHeader := "$" + Itoa(|name|) + "\r\n";
    CommandPieces();
    EncodeThree(Command, Subcommand, name);
    assert EncodeArray(xs) == "*3\r\n" + (("$8\r\n" + "sentinel\r\n") +
      (("$23\r\n" + "get-master-addr-by-name\r\n") + ((lenHeader + name) + "\r\n")));
    Regroup("*3\r\n", "$8\r\n", "sentinel\r\n", "$23\r\n", "get-master-addr-by-name\r\n",
            lenHeader, name, "\r\n");
  }

  /** The hand-written framing pieces are the generic ones for a three-element command. */
  lemma CommandPieces()
    ensures "*" + Itoa(3) + "\r\n" == "*3\r\n"
    ensures BulkString(Command) == "$8\r\n" + "sentinel\r\n"
    ensures BulkString(Subcommand) == "$23\r\n" + "get-master-addr-by-name\r\n"
  {
    ItoaSmall();
    assert "$" + Itoa(8) + "\r\n" == "$8\r\n";
    assert "$" + Itoa(23) + "\r\n" == "$23\r\n";
    assert "$8\r\n" + Command + "\r\n" == "$8\r\n" + "sentinel\r\n";
    assert "$23\r\n" + Subcommand + "\r\n" == "$23\r\n" + "get-master-addr-by-name\r\n";
  }

  lemma EncodeThree(a: string, b: string, c: string)
    ensures EncodeBulks([a, b, c]) == BulkString(a) + (BulkString(b) + BulkString(c))
  {
    assert [a, b, c][1..] == [b, c];
    assert [b, c][1..] == [c];
    assert [c][1..] == [];
    assert EncodeBulks([c]) == BulkString(c) + "";
    assert BulkString(c) + "" == BulkString(c);
  }

  lemma Regroup(a: string, b: string, c: string, d: string, e: string, f: string, g: string, h: string)
    ensures a + ((b + c) + ((d + e) + ((f + g) + h))) == a + b + c + d + e + f + g + h
  {
    var r := (f + g) + h;
    assert a + ((b + c) + ((d + e) + r)) == (a + (b + c)) + ((d + e) + r);
    assert a + (b + c) == a + b + c;
    assert (a + b + c) + ((d + e) + r) == ((a + b + c) + (d + e)) + r;
    assert (a + b + c) + (d + e) == a + b + c + d + e;
    assert (a + b + c + d + e) + ((f + g) + h) == ((a + b + c + d + e) + (f + g)) + h;
    assert (a + b + c + d + e) + (f + g) == a + b + c + d + e + f + g;
  }

  // ---------------------------------------------------------------------
  // Line splitting, as successive calls of bufio.Reader.ReadLine

  /** A line loses its end: "\n", or "\r\n". */
  function StripCR(l: string): string
  {
    if |l| > 0 && l[|l| - 1] == '\r' then l[..|l| - 1] else l
  }

  /**
   * The lines successive `ReadLine` calls return on the byte stream `s`;
   * a last fragment without '\n' is still returned as a line.
   */
  function SplitLines(s: string): seq<Option<string>>
    decreases |s|
  {
    if s == [] then []
    else
      match IndexOf(s, "\n")
      case None => [Some(s)]
      case Some(i) => [Some(StripCR(s[..i]))] + SplitLines(s[i + 1..])
  }

  predicate LineSafe(s: string)
  {
    forall i :: 0 <= i < |s| ==> s[i] != '\r' && s[i] != '\n'
  }

  lemma {:induction false} SplitLine(a: string, rest: string)
    requires LineSafe(a)
    ensures SplitLines(a + "\r\n" + rest) == [Some(a)] + SplitLines(rest)
  {
    var s := a + "\r\n" + rest;
    assert s[|a| + 1..|a| + 2] == "\n";
    assert MatchAt(s, "\n", |a| + 1);
    var r := IndexOf(s, "\n");
    assert r.Some?;
    var i := r.value;
    forall j: nat | j < |a| + 1 ensures !MatchAt(s, "\n", j) {
      assert s[j..j + 1][0] == s[j];
    }
    assert i == |a| + 1;
    assert s[..i] == a + "\r";
    assert s[i + 1..] == rest;
  }

  /** The lines in which an encoded multi-bulk arrives. */
  function BulkLines(xs: seq<string>): seq<Option<string>>
  {
    if xs == [] then [] else [Some("$" + Itoa(|xs[0]|)), Some(xs[0])] + BulkLines(xs[1..])
  }

  function ReplyLines(xs: seq<string>): seq<Option<string>>
  {
    [Some("*" + Itoa(|xs|))] + BulkLines(xs)
  }

  lemma ItoaLineSafe(n: nat)
    ensures LineSafe(Itoa(n)) && LineSafe("$" + Itoa(n)) && LineSafe("*" + Itoa(n))
  {
  }

  lemma {:induction false} SplitBulks(xs: seq<string>)
    requires forall k :: 0 <= k < |xs| ==> LineSafe(xs[k])
    ensures SplitLines(EncodeBulks(xs)) == BulkLines(xs)
  {
    if xs != [] {
      var x := xs[0];
      var h := "$" + Itoa(|x|);
      ItoaLineSafe(|x|);
      var tail := EncodeBulks(xs[1..]);
      Reassociate(h, "\r\n", x, "\r\n", tail);
      SplitLine(h, x + "\r\n" + tail);
      SplitLine(x, tail);
      SplitBulks(xs[1..]);
      PairInFront(Some(h), Some(x), BulkLines(xs[1..]));
    }
  }

  lemma Reassociate(a: string, b: string, c: string, d: string, e: string)
    ensures (a + b + c + d) + e == a + b + (c + d + e)
  {
  }

  lemma PairInFront<T>(u: T, v: T, rest: seq<T>)
    ensures [u] + ([v] + rest) == [u, v] + rest
  {
  }

  /** Cutting an encoded multi-bulk of CR/LF-free strings into lines gives its reply lines. */
  lemma SplitEncoded(xs: seq<string>)
    requires forall k :: 0 <= k < |xs| ==> LineSafe(xs[k])
    ensures SplitLines(EncodeArray(xs)) == ReplyLines(xs)
  {
    ItoaLineSafe(|xs|);
    assert EncodeArray(xs) == ("*" + Itoa(|xs|)) + "\r\n" + EncodeBulks(xs);
    SplitLine("*" + Itoa(|xs|), EncodeBulks(xs));
    SplitBulks(xs);
  }

  // ---------------------------------------------------------------------
  // Parsing

  /**
   * Why a lookup failed. The first five are the parser's own errors; the
   * last two come from the request side.
   */
  datatype Fault =
    | ReadFailed      // a line read failed or came back empty: peer closed
    | NotMultiBulk    // the first line does not start with '*'
    | NullRequest     // the count is -1: the sentinel knows no such master
    | NotBulk         // an element header does not start with '$'
    | WrongBulkSize   // a bulk's content is not as long as its header says
    | NoWriter        // no connection to write to
    | WriteFailed     // the connection refused the request bytes

  /** The error texts of the source (a failed write carries the network's own error). */
  function Message(f: Fault): string
    requires f != WriteFailed
  {
    match f
    case ReadFailed => "failed read line from client"
    case NotMultiBulk => "first char in mbulk is not *"
    case NullRequest => "null request"
    case NotBulk => "first char in bulk is not $"
    case WrongBulkSize => "wrong bulk size"
    case NoWriter => "all sentinels failed"
  }

  /**
   * What a lookup returns: the elements, or an error with the source's
   * "client closed" flag (true when the connection can no longer be used).
   * `Panicked` is the runtime panic of `make` on a count below -1.
   */
  datatype Outcome =
    | Done(elements: seq<string>)
    | Failed(fault: Fault, clientClosed: bool)
    | Panicked

  /** Line `p` of the stream; reading past its end fails as EOF does. */
  function ReadAt(lines: seq<Option<string>>, p: nat): Option<string>
  {
    if p < |lines| then lines[p] else None
  }

  /** What reading one bulk string found: its content, or the fault and how many lines were read. */
  datatype Step = Bulk(content: string) | Broken(fault: Fault, consumed: nat)

  /** One bulk string whose header is line `p` and whose content is line `p + 1`. */
  function BulkAt(lines: seq<Option<string>>, p: nat): Step
  {
    match ReadAt(lines, p)
    case None => Broken(ReadFailed, 1)
    case Some(h) =>
      if |h| == 0 then Broken(ReadFailed, 1)
      else if h[0] != '$' then Broken(NotBulk, 1)
      else
        match ReadAt(lines, p + 1)
        case None => Broken(ReadFailed, 2)
        case Some(c) => if |c| != Atoi(h[1..]) then Broken(WrongBulkSize, 2) else Bulk(c)
  }

  /** `n` bulk strings from line `p` on: the outcome and the next unread line. */
  function ParseBulks(lines: seq<Option<string>>, p: nat, n: nat): (Outcome, nat)
    decreases n
  {
    if n == 0 then (Done([]), p)
    else
      match BulkAt(lines, p)
      case Broken(f, c) => (Failed(f, f == ReadFailed), p + c)
      case Bulk(c) =>
        var (rest, q) := ParseBulks(lines, p + 2, n - 1);
        (if rest.Done? then Done([c] + rest.elements) else rest, q)
  }

  /** `parseResponse` on the stream `lines` read from line `p`: the outcome and the next unread line. */
  function ParseReply(lines: seq<Option<string>>, p: nat): (Outcome, nat)
  {
    match ReadAt(lines, p)
    case None => (Failed(ReadFailed, true), p + 1)
    case Some(h) =>
      if |h| == 0 then (Failed(ReadFailed, true), p + 1)
      else if h[0] != '*' then (Failed(NotMultiBulk, false), p + 1)
      else
        var n := Atoi(h[1..]);
        if n == -1 then (Failed(NullRequest, false), p + 1)
        else if n < -1 then (Panicked, p + 1)
        else ParseBulks(lines, p + 1, n)
  }

  // ---------------------------------------------------------------------
  // Properties of the parser

  /** The multi-bulk count the first line declares, when it is a '*' line. */
  predicate CountLine(lines: seq<Option<string>>, p: nat, n: int)
  {
    ReadAt(lines, p).Some? && |ReadAt(lines, p).value| > 0 &&
    ReadAt(lines, p).value[0] == '*' && Atoi(ReadAt(lines, p).value[1..]) == n
  }

  /** Bulk strings that are all well-formed, with contents `ys`, from line `p` on. */
  predicate WellFormedBulks(lines: seq<Option<string>>, p: nat, ys: seq<string>)
  {
    forall k :: 0 <= k < |ys| ==> BulkAt(lines, p + 2 * k) == Bulk(ys[k])
  }

  lemma WellFormedBulksCons(lines: seq<Option<string>>, p: nat, ys: seq<string>)
    requires |ys| > 0
    ensures WellFormedBulks(lines, p, ys) <==>
      BulkAt(lines, p) == Bulk(ys[0]) && WellFormedBulks(lines, p + 2, ys[1..])
  {
    if WellFormedBulks(lines, p, ys) {
      assert BulkAt(lines, p + 2 * 0) == Bulk(ys[0]);
      forall k | 0 <= k < |ys| - 1 ensures BulkAt(lines, p + 2 + 2 * k) == Bulk(ys[1..][k]) {
        assert p + 2 + 2 * k == p + 2 * (k + 1);
        assert BulkAt(lines, p + 2 * (k + 1)) == Bulk(ys[k + 1]);
      }
    }
    if BulkAt(lines, p) == Bulk(ys[0]) && WellFormedBulks(lines, p + 2, ys[1..]) {
      forall k | 0 <= k < |ys| ensures BulkAt(lines, p + 2 * k) == Bulk(ys[k]) {
        if k > 0 {
          assert p + 2 * k == p + 2 + 2 * (k - 1);
          assert BulkAt(lines, p + 2 + 2 * (k - 1)) == Bulk(ys[1..][k - 1]);
        }
      }
    }
  }

  /** After a `*n` line with `n >= 0`, the reply is the `n` bulk strings that follow. */
  lemma ParseReplyCount(lines: seq<Option<string>>, p: nat, n: nat)
    requires CountLine(lines, p, n)
    ensures ParseReply(lines, p) == ParseBulks(lines, p + 1, n)
  {
  }

  lemma WellFormedBulksSnoc(lines: seq<Option<string>>, p: nat, ys: seq<string>, y: string)
    requires WellFormedBulks(lines, p, ys) && BulkAt(lines, p + 2 * |ys|) == Bulk(y)
    ensures WellFormedBulks(lines, p, ys + [y])
  {
    forall k | 0 <= k < |ys| + 1 ensures BulkAt(lines, p + 2 * k) == Bulk((ys + [y])[k]) {
      if k < |ys| { assert (ys + [y])[k] == ys[k]; }
    }
  }

  lemma {:induction false} ParseBulksSound(lines: seq<Option<string>>, p: nat, n: nat)
    requires ParseBulks(lines, p, n).0.Done?
    ensures var ys := ParseBulks(lines, p, n).0.elements;
      |ys| == n && WellFormedBulks(lines, p, ys) && ParseBulks(lines, p, n).1 == p + 2 * n
    decreases n
  {
    if n > 0 {
      var c := BulkAt(lines, p).content;
      ParseBulksSound(lines, p + 2, n - 1);
      var ys := ParseBulks(lines, p, n).0.elements;
      assert ys == [c] + ParseBulks(lines, p + 2, n - 1).0.elements;
      assert ys[1..] == ParseBulks(lines, p + 2, n - 1).0.elements;
      WellFormedBulksCons(lines, p, ys);
    }
  }

  lemma {:induction false} ParseBulksComplete(lines: seq<Option<string>>, p: nat, ys: seq<string>)
    requires WellFormedBulks(lines, p, ys)
    ensures ParseBulks(lines, p, |ys|) == (Done(ys), p + 2 * |ys|)
    decreases |ys|
  {
    if ys != [] {
      WellFormedBulksCons(lines, p, ys);
      ParseBulksComplete(lines, p + 2, ys[1..]);
      assert ys == [ys[0]] + ys[1..];
    }
  }

  /**
   * Success: the reply parses to `ys` exactly when its first line is
   * `*n` with `n = |ys|`, and the `n` bulk strings that follow are
   * well-formed with element `k` the content of the `k`-th. A successful parse says
   * the connection is fine and has read exactly `1 + 2n` lines.
   */
  lemma ParseReplyDone(lines: seq<Option<string>>, p: nat, ys: seq<string>)
    ensures ParseReply(lines, p).0 == Done(ys) <==> CountLine(lines, p, |ys|) && WellFormedBulks(lines, p + 1, ys)
    ensures ParseReply(lines, p).0 == Done(ys) ==> ParseReply(lines, p).1 == p + 1 + 2 * |ys|
  {
    if ReadAt(lines, p).Some? {
      var h := ReadAt(lines, p).value;
      if |h| > 0 && h[0] == '*' && Atoi(h[1..]) >= 0 {
        var n := Atoi(h[1..]);
        ParseReplyCount(lines, p, n);
        if ParseBulks(lines, p + 1, n).0.Done? {
          ParseBulksSound(lines, p + 1, n);
        }
        if CountLine(lines, p, |ys|) && WellFormedBulks(lines, p + 1, ys) {
          ParseBulksComplete(lines, p + 1, ys);
        }
      }
    }
  }

  /**
   * The first bad bulk string decides the error: the fault it found, with
   * the "client closed" flag set exactly for a failed or empty line read.
   */
  lemma {:induction false} ParseBulksFirstBroken(lines: seq<Option<string>>, p: nat, n: nat, ys: seq<string>, b: Step)
    requires |ys| < n && WellFormedBulks(lines, p, ys)
    requires b == BulkAt(lines, p + 2 * |ys|) && b.Broken?
    ensures ParseBulks(lines, p, n) == (Failed(b.fault, b.fault == ReadFailed), p + 2 * |ys| + b.consumed)
    decreases n
  {
    if ys != [] {
      WellFormedBulksCons(lines, p, ys);
      assert p + 2 + 2 * |ys[1..]| == p + 2 * |ys|;
      ParseBulksFirstBroken(lines, p + 2, n - 1, ys[1..], b);
    }
  }

  lemma {:induction false} ParseBulksFailedFlag(lines: seq<Option<string>>, p: nat, n: nat)
    ensures ParseBulks(lines, p, n).0.Failed? ==>
      ParseBulks(lines, p, n).0.clientClosed == (ParseBulks(lines, p, n).0.fault == ReadFailed)
    ensures ParseBulks(lines, p, n).0.Failed? ==>
      ParseBulks(lines, p, n).0.fault in {ReadFailed, NotBulk, WrongBulkSize}
    ensures !ParseBulks(lines, p, n).0.Panicked?
    decreases n
  {
    if n > 0 && BulkAt(lines, p).Bulk? {
      ParseBulksFailedFlag(lines, p + 2, n - 1);
    }
  }

  /**
   * Classification: a failed parse reports "client closed" exactly when a
   * line read failed or came back empty; every framing error (wrong '*' or
   * '$', null reply, size mismatch) leaves the connection usable, and the
   * parser never produces the request-side faults.
   */
  lemma ParseReplyFailedFlag(lines: seq<Option<string>>, p: nat)
    ensures ParseReply(lines, p).0.Failed? ==>
      ParseReply(lines, p).0.clientClosed == (ParseReply(lines, p).0.fault == ReadFailed)
    ensures ParseReply(lines, p).0.Failed? ==>
      ParseReply(lines, p).0.fault !in {NoWriter, WriteFailed}
  {
    match ReadAt(lines, p)
    case None =>
    case Some(h) =>
      if |h| > 0 && h[0] == '*' && Atoi(h[1..]) >= 0 {
        ParseBulksFailedFlag(lines, p + 1, Atoi(h[1..]));
      }
  }

  /**
   * The first line alone decides four outcomes: missing or empty is a
   * closed peer; no '*' is a protocol violation; a count of -1 is the null
   * reply (never a connection failure); a count below -1 panics.
   */
  lemma ParseReplyFirstLine(lines: seq<Option<string>>, p: nat)
    ensures ReadAt(lines, p) == None || ReadAt(lines, p) == Some("") ==>
      ParseReply(lines, p) == (Failed(ReadFailed, true), p + 1)
    ensures ReadAt(lines, p).Some? && |ReadAt(lines, p).value| > 0 && ReadAt(lines, p).value[0] != '*' ==>
      ParseReply(lines, p) == (Failed(NotMultiBulk, false), p + 1)
    ensures CountLine(lines, p, -1) ==> ParseReply(lines, p) == (Failed(NullRequest, false), p + 1)
    ensures ParseReply(lines, p).0 == Failed(NullRequest, false) <==> CountLine(lines, p, -1)
    ensures ParseReply(lines, p).0.Panicked? <==>
      exists n :: MinInt64 <= n < -1 && CountLine(lines, p, n)
  {
    match ReadAt(lines, p)
    case None =>
    case Some(h) =>
      if |h| > 0 && h[0] == '*' {
        var n := Atoi(h[1..]);
        if n >= 0 { ParseBulksFailedFlag(lines, p + 1, n); }
        if n < -1 { assert CountLine(lines, p, n); }
      }
  }

  lemma AtoiMinusOne()
    ensures Atoi("-1") == -1
  {
    assert "-1"[1..] == "1";
    assert "1"[1..] == [];
  }

  /** A `*-1` header is the null reply, whatever follows it. */
  lemma NullReply(rest: seq<Option<string>>)
    ensures ParseReply([Some("*-1")] + rest, 0) == (Failed(NullRequest, false), 1)
  {
    AtoiMinusOne();
    assert "*-1"[1..] == "-1";
  }

  lemma AtoiSmallCount()
    ensures Atoi("1") == 1 && Atoi("2") == 2 && Atoi("3") == 3
  {
    assert "1"[1..] == [] && "2"[1..] == [] && "3"[1..] == [];
  }

  /**
   * A malformed count is not an error: it reads as 0, so the reply is the
   * empty success after one line.
   */
  lemma MalformedCountIsEmpty(rest: seq<Option<string>>)
    ensures ParseReply([Some("*x")] + rest, 0) == (Done([]), 1)
  {
    var lines := [Some("*x")] + rest;
    assert ReadAt(lines, 0) == Some("*x") && "*x"[1..] == "x";
    assert DigitPart("x") == "x" && "x"[..0] == [];
    AtoiMalformed("x", 0);
  }

  /** An element header without '$' is a framing error on a usable connection. */
  lemma FramingExample(rest: seq<Option<string>>)
    ensures ParseReply([Some("*2"), Some("x")] + rest, 0) == (Failed(NotBulk, false), 2)
  {
    var lines := [Some("*2"), Some("x")] + rest;
    AtoiSmallCount();
    assert ReadAt(lines, 0) == Some("*2") && "*2"[1..] == "2";
    assert ReadAt(lines, 1) == Some("x");
    assert BulkAt(lines, 1) == Broken(NotBulk, 1);
  }

  /** An empty line where an element header is expected means the peer closed. */
  lemma PeerClosedExample(rest: seq<Option<string>>)
    ensures ParseReply([Some("*2"), Some("")] + rest, 0) == (Failed(ReadFailed, true), 2)
  {
    var lines := [Some("*2"), Some("")] + rest;
    AtoiSmallCount();
    assert ReadAt(lines, 0) == Some("*2") && "*2"[1..] == "2";
    assert ReadAt(lines, 1) == Some("");
    assert BulkAt(lines, 1) == Broken(ReadFailed, 1);
  }

  /** A content line shorter than its `$` header declares is a size error on a usable connection. */
  lemma WrongSizeExample(rest: seq<Option<string>>)
    ensures ParseReply([Some("*1"), Some("$3"), Some("ab")] + rest, 0) == (Failed(WrongBulkSize, false), 3)
  {
    var lines := [Some("*1"), Some("$3"), Some("ab")] + rest;
    AtoiSmallCount();
    assert ReadAt(lines, 0) == Some("*1") && "*1"[1..] == "1";
    assert ReadAt(lines, 1) == Some("$3") && "$3"[1..] == "3";
    assert ReadAt(lines, 2) == Some("ab");
    assert BulkAt(lines, 1) == Broken(WrongBulkSize, 2);
  }

  /** Parsing the reply lines of a list gives the list back, having read all its lines. */
  lemma ParseReplyLines(xs: seq<string>)
    requires |xs| <= MaxInt64
    requires forall k :: 0 <= k < |xs| ==> |xs[k]| <= MaxInt64
    ensures ParseReply(ReplyLines(xs), 0) == (Done(xs), |ReplyLines(xs)|)
  {
    ReplyLinesFraming(xs);
    ParseWellFormed(ReplyLines(xs), 0, xs, |ReplyLines(xs)|);
  }

  /** The reply lines of a list: a count line, then one well-formed bulk string per element, and nothing more. */
  lemma ReplyLinesFraming(xs: seq<string>)
    requires |xs| <= MaxInt64
    requires forall k :: 0 <= k < |xs| ==> |xs[k]| <= MaxInt64
    ensures CountLine(ReplyLines(xs), 0, |xs|) && WellFormedBulks(ReplyLines(xs), 1, xs)
    ensures |ReplyLines(xs)| == 0 + 1 + 2 * |xs|
  {
    BulkLinesShape(xs);
    ReplyLinesCount(xs);
    ReplyLinesWellFormed(xs);
  }

  /** A `*n` line followed by n well-formed bulk strings parses to their contents, and `end` is the line just past them. */
  lemma ParseWellFormed(lines: seq<Option<string>>, p: nat, ys: seq<string>, end: nat)
    requires CountLine(lines, p, |ys|) && WellFormedBulks(lines, p + 1, ys)
    requires end == p + 1 + 2 * |ys|
    ensures ParseReply(lines, p) == (Done(ys), end)
  {
    ParseReplyCount(lines, p, |ys|);
    ParseBulksComplete(lines, p + 1, ys);
  }

  lemma ReplyLinesWellFormed(xs: seq<string>)
    requires forall k :: 0 <= k < |xs| ==> |xs[k]| <= MaxInt64
    ensures WellFormedBulks(ReplyLines(xs), 1, xs)
  {
    forall k | 0 <= k < |xs| ensures BulkAt(ReplyLines(xs), 1 + 2 * k) == Bulk(xs[k]) {
      ReplyLinesBulk(xs, k);
    }
  }

  lemma ReplyLinesCount(xs: seq<string>)
    requires |xs| <= MaxInt64
    ensures CountLine(ReplyLines(xs), 0, |xs|)
  {
    AtoiItoa(|xs|);
    assert ReplyLines(xs)[0] == Some("*" + Itoa(|xs|));
    assert ("*" + Itoa(|xs|))[1..] == Itoa(|xs|);
  }

  lemma ReplyLinesBulk(xs: seq<string>, k: nat)
    requires k < |xs| && |xs[k]| <= MaxInt64
    ensures BulkAt(ReplyLines(xs), 1 + 2 * k) == Bulk(xs[k])
  {
    var lines := ReplyLines(xs);
    BulkLinesShape(xs);
    AtoiItoa(|xs[k]|);
    assert lines[1 + 2 * k] == Some("$" + Itoa(|xs[k]|));
    assert lines[2 + 2 * k] == Some(xs[k]);
    assert ("$" + Itoa(|xs[k]|))[1..] == Itoa(|xs[k]|);
  }

  lemma {:induction false} BulkLinesShape(xs: seq<string>)
    ensures |BulkLines(xs)| == 2 * |xs|
    ensures forall k :: 0 <= k < |xs| ==>
      BulkLines(xs)[2 * k] == Some("$" + Itoa(|xs[k]|)) && BulkLines(xs)[2 * k + 1] == Some(xs[k])
  {
    if xs != [] {
      BulkLinesShape(xs[1..]);
      var tail := BulkLines(xs[1..]);
      assert BulkLines(xs) == [Some("$" + Itoa(|xs[0]|)), Some(xs[0])] + tail;
      forall k | 0 <= k < |xs|
        ensures BulkLines(xs)[2 * k] == Some("$" + Itoa(|xs[k]|)) && BulkLines(xs)[2 * k + 1] == Some(xs[k])
      {
        if k > 0 {
          assert BulkLines(xs)[2 * k] == tail[2 * (k - 1)];
          assert BulkLines(xs)[2 * k + 1] == tail[2 * (k - 1) + 1];
          assert xs[1..][k - 1] == xs[k];
        }
      }
    }
  }

  /**
   * Round trip over the wire: a multi-bulk of CR/LF-free strings, encoded
   * and cut into lines as the reader does, parses back to the same list.
   */
  lemma DecodeEncode(xs: seq<string>)
    requires |xs| <= MaxInt64
    requires forall k :: 0 <= k < |xs| ==> |xs[k]| <= MaxInt64 && LineSafe(xs[k])
    ensures ParseReply(SplitLines(EncodeArray(xs)), 0).0 == Done(xs)
  {
    SplitEncoded(xs);
    ParseReplyLines(xs);
  }

  /** The request itself is well-framed: the parser reads it back as the three-word command. */
  lemma RequestParsesBack(name: string)
    requires |name| <= MaxInt64 && LineSafe(name)
    ensures ParseReply(SplitLines(Request(name)), 0).0 == Done([Command, Subcommand, name])
  {
    RequestIsCommandArray(name);
    DecodeEncode([Command, Subcommand, name]);
  }
}
