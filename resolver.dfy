/**
 * The fan-out resolver: an ordered list of sentinel clients, asked in turn
 * for a master's address, the first answer winning; the answer's parts are
 * joined with ":" and, when the rewrite flag is set, the first occurrence
 * of "192.168.1" is replaced by "192.168.2".
 */
module Resolution {
  import opened Wrappers
  import opened Text

  /**
   * A sentinel client as the resolver sees it: the answer its
   * `GetMasterAddrByName(name).Result()` gives, either the reply parts or
   * an error text. The network round trip behind it is not modelled.
   */
  datatype SentinelClient = SentinelClient(masterAddr: string -> Result<seq<string>, string>)

  const AllFailed: string := "all sentinels failed"
  const Pattern: string := "192.168.1"
  const Replacement: string := "192.168.2"

  /** `strings.Replace(ip, "192.168.1", "192.168.2", 1)`. */
  function RewriteIp(ip: string): string
  {
    ReplaceFirst(ip, Pattern, Replacement)
  }

  /** The address built from a successful reply. */
  function Address(parts: seq<string>, rewrite: bool): string
  {
    var ip := Join(parts, ":");
    if rewrite then RewriteIp(ip) else ip
  }

  /** Whether source `i` answers the lookup of `name`. */
  predicate Answers(sentinels: seq<SentinelClient>, i: nat, name: string)
    requires i < |sentinels|
  {
    sentinels[i].masterAddr(name).Success?
  }

  /**
   * What `Resolve` returns, source by source: the first source that
   * answers decides the address; with none, the aggregate error.
   */
  function Lookup(sentinels: seq<SentinelClient>, rewrite: bool, name: string): (string, Option<string>)
    decreases |sentinels|
  {
    if sentinels == [] then ("", Some(AllFailed))
    else
      match sentinels[0].masterAddr(name)
      case Success(parts) => (Address(parts, rewrite), None)
      case Failure(_) => Lookup(sentinels[1..], rewrite, name)
  }

  /** The index of the first source that answers, when one does. */
  function FirstAnswer(sentinels: seq<SentinelClient>, name: string): (i: nat)
    requires exists k :: 0 <= k < |sentinels| && Answers(sentinels, k, name)
    ensures i < |sentinels| && Answers(sentinels, i, name)
    ensures forall j :: 0 <= j < i ==> !Answers(sentinels, j, name)
    decreases |sentinels|
  {
    if Answers(sentinels, 0, name) then 0
    else
      var k :| 0 <= k < |sentinels| && Answers(sentinels, k, name);
      assert Answers(sentinels[1..], k - 1, name);
      var i := 1 + FirstAnswer(sentinels[1..], name);
      assert forall j :: 1 <= j < i ==> Answers(sentinels, j, name) == Answers(sentinels[1..], j - 1, name);
      i
  }

  /**
   * The lookup succeeds exactly when some source answers, and then it is
   * the address of the first one that does; otherwise it is ("", the
   * aggregate error).
   */
  lemma {:induction false} LookupFirstSuccess(sentinels: seq<SentinelClient>, rewrite: bool, name: string)
    ensures Lookup(sentinels, rewrite, name).1.None? <==>
      exists k :: 0 <= k < |sentinels| && Answers(sentinels, k, name)
    ensures (exists k :: 0 <= k < |sentinels| && Answers(sentinels, k, name)) ==>
      var i := FirstAnswer(sentinels, name);
      Lookup(sentinels, rewrite, name).0 == Address(sentinels[i].masterAddr(name).value, rewrite)
    ensures (forall k :: 0 <= k < |sentinels| ==> !Answers(sentinels, k, name)) ==>
      Lookup(sentinels, rewrite, name) == ("", Some(AllFailed))
    decreases |sentinels|
  {
    if sentinels != [] {
      var tail := sentinels[1..];
      LookupFirstSuccess(tail, rewrite, name);
      forall k | 1 <= k < |sentinels| ensures Answers(sentinels, k, name) == Answers(tail, k - 1, name) {
      }
      if !Answers(sentinels, 0, name) {
        assert Lookup(sentinels, rewrite, name) == Lookup(tail, rewrite, name);
        if exists k :: 0 <= k < |sentinels| && Answers(sentinels, k, name) {
          var k :| 0 <= k < |sentinels| && Answers(sentinels, k, name);
          assert Answers(tail, k - 1, name);
        }
        if exists k :: 0 <= k < |tail| && Answers(tail, k, name) {
          var k :| 0 <= k < |tail| && Answers(tail, k, name);
          assert Answers(sentinels, k + 1, name);
        }
      }
    }
  }

  /**
   * `resolver`: the sentinel list and the rewrite flag, both fixed once
   * `NewResolver` has built it.
   */
  class Resolver {
    const sentinels: seq<SentinelClient>
    const replaceIpAddress: bool

    /** `NewResolver`: keeps the list and the flag as given. */
    constructor (sentinels: seq<SentinelClient>, replaceIpAddress: bool)
      ensures this.sentinels == sentinels && this.replaceIpAddress == replaceIpAddress
    {
      this.sentinels := sentinels;
      this.replaceIpAddress := replaceIpAddress;
    }

    /**
     * `Resolve`: ask the sources in order; skip one that errs; the first
     * that answers gives the (possibly rewritten) joined address.
     * `queried` logs the index of every source asked, at the moment it is
     * asked: each source once, in list order, up to and including the
     * first that answers, and no later one.
     */
    method Resolve(dbName: string) returns (ip: string, err: Option<string>, ghost queried: seq<nat>)
      ensures (ip, err) == Lookup(sentinels, replaceIpAddress, dbName)
      ensures forall j :: 0 <= j < |queried| ==> queried[j] == j
      ensures err.None? ==>
        && (exists k :: 0 <= k < |sentinels| && Answers(sentinels, k, dbName))
        && |queried| == FirstAnswer(sentinels, dbName) + 1
      ensures err.Some? ==> |queried| == |sentinels| && ip == "" && err == Some(AllFailed)
    {
      queried := [];
      var i := 0;
      while i < |sentinels|
        invariant 0 <= i <= |sentinels| && |queried| == i
        invariant forall j :: 0 <= j < i ==> queried[j] == j && !Answers(sentinels, j, dbName)
        invariant Lookup(sentinels[i..], replaceIpAddress, dbName) == Lookup(sentinels, replaceIpAddress, dbName)
      {
        var sentinel := sentinels[i];
        var result := sentinel.masterAddr(dbName);
        queried := queried + [i];
        if result.Failure? {
          assert sentinels[i..][1..] == sentinels[i + 1..];
          i := i + 1;
          continue;
        }
        ip := Join(result.value, ":");
        if replaceIpAddress {
          ip := RewriteIp(ip);
        }
        assert Answers(sentinels, i, dbName);
        assert FirstAnswer(sentinels, dbName) == i;
        return ip, None, queried;
      }
      return "", Some(AllFailed), queried;
    }
  }

  // ---------------------------------------------------------------------
  // The address rewrite

  /** Only the first occurrence is rewritten; the text before it holds none, the text after it is kept. */
  lemma RewriteFirstOnly(ip: string)
    requires Contains(ip, Pattern)
    ensures exists i: nat ::
      && MatchAt(ip, Pattern, i)
      && (forall j: nat :: j < i ==> !MatchAt(ip, Pattern, j))
      && RewriteIp(ip) == ip[..i] + Replacement + ip[i + |Pattern|..]
  {
    ReplaceFirstOnlyFirst(ip, Pattern, Replacement);
  }

  /** An address without "192.168.1" is left as it is. */
  lemma RewriteNoMatch(ip: string)
    requires !Contains(ip, Pattern)
    ensures RewriteIp(ip) == ip
  {
    ReplaceFirstNoMatch(ip, Pattern, Replacement);
  }

  /**
   * Both literals are nine characters long, so the rewrite keeps the
   * length, and changes at most the one character where they differ.
   */
  lemma RewriteShape(ip: string)
    ensures |RewriteIp(ip)| == |ip|
    ensures forall k :: 0 <= k < |ip| && RewriteIp(ip)[k] != ip[k] ==>
      ip[k] == '1' && RewriteIp(ip)[k] == '2'
  {
    ReplaceFirstSameLength(ip, Pattern, Replacement);
    match IndexOf(ip, Pattern)
    case None =>
    case Some(i) =>
      ReplaceFirstWindow(ip, Pattern, Replacement, i);
      assert ip[i..i + |Pattern|] == Pattern;
      forall k | i <= k < i + |Pattern| && RewriteIp(ip)[k] != ip[k]
        ensures ip[k] == '1' && RewriteIp(ip)[k] == '2'
      {
        assert ip[k] == Pattern[k - i];
      }
  }

  /** An address that starts with the pattern gets the replacement in front and keeps the rest. */
  lemma RewriteLeading(rest: string)
    ensures RewriteIp(Pattern + rest) == Replacement + rest
  {
    var ip := Pattern + rest;
    assert MatchAt(ip, Pattern, 0) by { assert ip[0..|Pattern|] == Pattern; }
    assert IndexOf(ip, Pattern) == Some(0);
    assert ip[|Pattern|..] == rest;
  }

  /** The match is on text, not on subnets: 192.168.10.x is rewritten to 192.168.20.x. */
  lemma RewriteIsTextual()
    ensures RewriteIp("192.168.10.5:6379") == "192.168.20.5:6379"
  {
    assert "192.168.10.5:6379" == Pattern + "0.5:6379";
    RewriteLeading("0.5:6379");
    assert Replacement + "0.5:6379" == "192.168.20.5:6379";
  }

  /** The documented example: 192.168.1.42:6379 becomes 192.168.2.42:6379. */
  lemma RewriteExample()
    ensures RewriteIp("192.168.1.42:6379") == "192.168.2.42:6379"
  {
    assert "192.168.1.42:6379" == Pattern + ".42:6379";
    RewriteLeading(".42:6379");
    assert Replacement + ".42:6379" == "192.168.2.42:6379";
  }

  /** With the rewrite off, a host and a port are joined with a single ":". */
  lemma AddressOfPair(host: string, port: string)
    ensures Address([host, port], false) == host + ":" + port
  {
    JoinPair(host, port, ":");
  }

  /** A first source that errs is skipped, and the second source's answer is returned. */
  lemma FallbackExample(first: SentinelClient, second: SentinelClient, rest: seq<SentinelClient>, name: string)
    requires first.masterAddr(name).Failure?
    requires second.masterAddr(name) == Success(["10.0.0.5", "6379"])
    ensures Lookup([first, second] + rest, false, name) == ("10.0.0.5:6379", None)
  {
    var s := [first, second] + rest;
    assert s[0] == first;
    assert s[1..] == [second] + rest;
    assert Lookup(s, false, name) == Lookup([second] + rest, false, name);
    assert ([second] + rest)[0] == second;
    AddressOfPair("10.0.0.5", "6379");
    assert "10.0.0.5" + ":" + "6379" == "10.0.0.5:6379";
    assert Lookup([second] + rest, false, name) == (Address(["10.0.0.5", "6379"], false), None);
  }
}
