/**
 * The few pieces of Go's standard library that the core relies on, stated
 * exactly as the library behaves: decimal formatting (`fmt` with `%d` on a
 * length), `strconv.Atoi` on a 64-bit platform, `strings.Join`,
 * `strings.Index`, `strings.Replace` with a count of 1, and
 * `net.JoinHostPort`.
 */
module Text {
  import opened Wrappers

  // ---------------------------------------------------------------------
  // Decimal digits

  predicate IsDigit(c: char) { '0' <= c <= '9' }

  function DigitChar(d: nat): (c: char)
    requires d < 10
    ensures IsDigit(c) && c as int - '0' as int == d
  {
    (48 + d) as char
  }

  /** Decimal rendering of a non-negative integer, as `fmt.Sprintf("%d", n)`. */
  function Itoa(n: nat): (s: string)
    ensures |s| > 0 && forall i :: 0 <= i < |s| ==> IsDigit(s[i])
  {
    if n < 10 then [DigitChar(n)] else Itoa(n / 10) + [DigitChar(n % 10)]
  }

  // ---------------------------------------------------------------------
  // strconv.Atoi (64-bit int): ParseInt(s, 10, 64) with its error dropped

  const MaxUint64: int := 0xFFFF_FFFF_FFFF_FFFF
  const MaxInt64: int := 0x7FFF_FFFF_FFFF_FFFF
  const MinInt64: int := -0x8000_0000_0000_0000
  /** ParseUint's overflow guard for base 10: maxUint64/10 + 1. */
  const Cutoff: int := MaxUint64 / 10 + 1

  datatype UintScan = Value(n: nat) | SyntaxError | RangeError

  /**
   * ParseUint's digit loop: characters are consumed left to right; a
   * non-digit is a syntax error, and the overflow checks run before each
   * accumulation, so an overflow is reported even if a non-digit follows.
   */
  function ScanUint(s: string, acc: nat): UintScan
    requires acc <= MaxUint64
  {
    if s == [] then Value(acc)
    else if !IsDigit(s[0]) then SyntaxError
    else if acc >= Cutoff then RangeError
    else
      var next := acc * 10 + (s[0] as int - '0' as int);
      if next > MaxUint64 then RangeError else ScanUint(s[1..], next)
  }

  /** The magnitude ParseUint hands back: 0 on a syntax error, maxUint64 on overflow. */
  function Magnitude(s: string): nat
  {
    match ScanUint(s, 0)
    case Value(n) => n
    case SyntaxError => 0
    case RangeError => MaxUint64
  }

  /**
   * `strconv.Atoi(s)` with its error ignored, as the parser does: an empty or
   * malformed string gives 0, an out-of-range one is clamped to the int64
   * bounds, and one leading '+' or '-' is accepted.
   */
  function Atoi(s: string): (n: int)
    ensures MinInt64 <= n <= MaxInt64
  {
    if s == [] then 0
    else
      var neg := s[0] == '-';
      var digits := DigitPart(s);
      if ScanUint(digits, 0).SyntaxError? then 0
      else
        var u := Magnitude(digits);
        if !neg then (if u > MaxInt64 then MaxInt64 else u)
        else (if u > -MinInt64 then MinInt64 else -(u as int))
  }

  /** What follows the one optional leading sign. */
  function DigitPart(s: string): string
  {
    if s != [] && (s[0] == '+' || s[0] == '-') then s[1..] else s
  }

  lemma {:induction false} ScanUintAppend(s: string, acc: nat, d: nat)
    requires acc <= MaxUint64 && d < 10
    requires ScanUint(s, acc).Value?
    requires ScanUint(s, acc).n * 10 + d <= MaxUint64
    ensures ScanUint(s + [DigitChar(d)], acc) == Value(ScanUint(s, acc).n * 10 + d)
  {
    if s == [] {
      assert s + [DigitChar(d)] == [DigitChar(d)];
      assert ([DigitChar(d)])[1..] == [];
    } else {
      var next := acc * 10 + (s[0] as int - '0' as int);
      assert (s + [DigitChar(d)])[1..] == s[1..] + [DigitChar(d)];
      ScanUintAppend(s[1..], next, d);
    }
  }

  lemma {:induction false} ScanItoa(n: nat)
    requires n <= MaxUint64
    ensures ScanUint(Itoa(n), 0) == Value(n)
  {
    if n < 10 {
      assert Itoa(n)[1..] == [];
    } else {
      ScanItoa(n / 10);
      assert ScanUint([] + [DigitChar(n % 10)], 0) == Value(n % 10) by {
        assert [DigitChar(n % 10)][1..] == [];
      }
      ScanUintAppend(Itoa(n / 10), 0, n % 10);
    }
  }

  /**
   * A non-digit stops the scan with a syntax error, provided the digits
   * before it have not already overflowed.
   */
  lemma {:induction false} ScanUintNonDigit(s: string, acc: nat, k: nat)
    requires acc <= MaxUint64 && k < |s| && !IsDigit(s[k])
    requires ScanUint(s[..k], acc).Value?
    ensures ScanUint(s, acc) == SyntaxError
    decreases k
  {
    if k > 0 {
      assert s[..k][0] == s[0];
      assert s[..k][1..] == s[1..][..k - 1];
      var next := acc * 10 + (s[0] as int - '0' as int);
      ScanUintNonDigit(s[1..], next, k - 1);
    }
  }

  /**
   * A count with a non-digit after the optional sign reads as 0, as Atoi
   * with its error ignored gives, unless the digits before it overflowed.
   */
  lemma AtoiMalformed(s: string, k: nat)
    requires k < |DigitPart(s)| && !IsDigit(DigitPart(s)[k])
    requires ScanUint(DigitPart(s)[..k], 0).Value?
    ensures Atoi(s) == 0
  {
    ScanUintNonDigit(DigitPart(s), 0, k);
  }

  /** Atoi inverts Itoa on every value an int64 can hold. */
  lemma AtoiItoa(n: nat)
    requires n <= MaxInt64
    ensures Atoi(Itoa(n)) == n
  {
    ScanItoa(n);
  }

  // ---------------------------------------------------------------------
  // strings.Join

  /** `strings.Join(parts, sep)`. */
  function Join(parts: seq<string>, sep: string): string
  {
    if |parts| == 0 then ""
    else if |parts| == 1 then parts[0]
    else parts[0] + sep + Join(parts[1..], sep)
  }

  /** Joining a host and a port puts exactly one separator between them. */
  lemma JoinPair(host: string, port: string, sep: string)
    ensures Join([host, port], sep) == host + sep + port
  {
    assert [host, port][1..] == [port];
  }

  // ---------------------------------------------------------------------
  // strings.Index and strings.Replace(s, pat, rep, 1)

  predicate MatchAt(s: string, pat: string, i: nat)
  {
    i + |pat| <= |s| && s[i..i + |pat|] == pat
  }

  predicate Contains(s: string, pat: string)
  {
    exists i: nat | i <= |s| :: MatchAt(s, pat, i)
  }

  /** `strings.Index(s, pat)`: the first position where `pat` occurs, if any. */
  function IndexOf(s: string, pat: string): (r: Option<nat>)
    ensures r.Some? ==> MatchAt(s, pat, r.value)
    ensures r.Some? ==> forall j: nat :: j < r.value ==> !MatchAt(s, pat, j)
    ensures r.None? ==> !Contains(s, pat)
    decreases |s|
  {
    if |s| < |pat| then None
    else if s[..|pat|] == pat then Some(0)
    else
      match IndexOf(s[1..], pat)
      case Some(j) =>
        assert forall k: nat :: k <= j ==> MatchAt(s, pat, k + 1) == MatchAt(s[1..], pat, k) by {
          forall k: nat | k <= j ensures MatchAt(s, pat, k + 1) == MatchAt(s[1..], pat, k) {
            ShiftMatch(s, pat, k);
          }
        }
        assert forall k: nat :: k < j + 1 ==> !MatchAt(s, pat, k) by {
          forall k: nat | k < j + 1 ensures !MatchAt(s, pat, k) {
            if k > 0 { ShiftMatch(s, pat, k - 1); }
          }
        }
        Some(j + 1)
      case None =>
        assert !Contains(s, pat) by {
          forall k: nat | k <= |s| ensures !MatchAt(s, pat, k) {
            if k > 0 { ShiftMatch(s, pat, k - 1); }
          }
        }
        None
  }

  lemma ShiftMatch(s: string, pat: string, k: nat)
    requires |s| > 0
    ensures MatchAt(s, pat, k + 1) == MatchAt(s[1..], pat, k)
  {
    if k + 1 + |pat| <= |s| {
      assert s[k + 1..k + 1 + |pat|] == s[1..][k..k + |pat|];
    }
  }

  /**
   * `strings.Replace(s, pat, rep, 1)`: Go returns `s` itself when the two are
   * equal, puts `rep` in front when `pat` is empty, and otherwise splices
   * `rep` over the first occurrence only.
   */
  function ReplaceFirst(s: string, pat: string, rep: string): string
  {
    if pat == rep then s
    else if pat == "" then rep + s
    else
      match IndexOf(s, pat)
      case None => s
      case Some(i) => s[..i] + rep + s[i + |pat|..]
  }

  /** Without an occurrence of the pattern, replacing is the identity. */
  lemma ReplaceFirstNoMatch(s: string, pat: string, rep: string)
    requires pat != "" && !Contains(s, pat)
    ensures ReplaceFirst(s, pat, rep) == s
  {
  }

  /**
   * With an occurrence, exactly the window of the first occurrence changes:
   * everything before it (which holds no occurrence) and everything after it
   * (later occurrences included) is kept.
   */
  lemma ReplaceFirstOnlyFirst(s: string, pat: string, rep: string)
    requires pat != "" && pat != rep && Contains(s, pat)
    ensures exists i: nat ::
      && MatchAt(s, pat, i)
      && (forall j: nat :: j < i ==> !MatchAt(s, pat, j))
      && ReplaceFirst(s, pat, rep) == s[..i] + rep + s[i + |pat|..]
  {
    var i := IndexOf(s, pat).value;
    assert ReplaceFirst(s, pat, rep) == s[..i] + rep + s[i + |pat|..];
  }

  /** Replacing by a string of the same length keeps the length. */
  lemma ReplaceFirstSameLength(s: string, pat: string, rep: string)
    requires |pat| == |rep|
    ensures |ReplaceFirst(s, pat, rep)| == |s|
  {
    if pat != rep && pat != "" {
      match IndexOf(s, pat)
      case None =>
      case Some(i) =>
        assert ReplaceFirst(s, pat, rep) == s[..i] + rep + s[i + |pat|..];
    }
  }

  /**
   * Replacing the first occurrence, at `i`, by a string of the same length
   * writes `rep` over that window and keeps every other character.
   */
  lemma ReplaceFirstWindow(s: string, pat: string, rep: string, i: nat)
    requires |pat| == |rep| && pat != "" && pat != rep
    requires IndexOf(s, pat) == Some(i)
    ensures forall k :: 0 <= k < |s| ==>
      ReplaceFirst(s, pat, rep)[k] == if i <= k < i + |pat| then rep[k - i] else s[k]
  {
    assert ReplaceFirst(s, pat, rep) == s[..i] + rep + s[i + |pat|..];
    SpliceAt(s, i, rep);
  }

  lemma SpliceAt(s: string, i: nat, rep: string)
    requires i + |rep| <= |s|
    ensures var r := s[..i] + rep + s[i + |rep|..];
      |r| == |s| && forall k :: 0 <= k < |s| ==> r[k] == if i <= k < i + |rep| then rep[k - i] else s[k]
  {
    var r := s[..i] + rep + s[i + |rep|..];
    forall k | 0 <= k < |s|
      ensures r[k] == if i <= k < i + |rep| then rep[k - i] else s[k]
    {
      if k < i {
        assert r[k] == s[..i][k];
      } else if k < i + |rep| {
        assert r[k] == (s[..i] + rep)[k];
      } else {
        assert r[k] == s[i + |rep|..][k - i - |rep|];
      }
    }
  }

  // ---------------------------------------------------------------------
  // net.JoinHostPort

  /** `net.JoinHostPort`: a host containing ':' (an IPv6 literal) is bracketed. */
  function JoinHostPort(host: string, port: string): string
  {
    if ':' in host then "[" + host + "]:" + port else host + ":" + port
  }

  /** For a host without ':', JoinHostPort is the same as joining the pair with ":". */
  lemma JoinHostPortIsJoin(host: string, port: string)
    requires ':' !in host
    ensures JoinHostPort(host, port) == Join([host, port], ":")
  {
    JoinPair(host, port, ":");
  }
}
