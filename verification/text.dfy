/**
 * The string primitives the core relies on: PHP's trim(), the captures of the
 * whitespace pattern ^(\s*)(?:.*\S)?(\s*)$ used on template arguments, PHP's
 * truthiness of strings, and the decimal conversion of (string)$int together
 * with PHP's reading of a canonical decimal string as an array index.
 */
module Text {

  /** The characters PHP's trim() strips: space, tab, newline, carriage return, NUL, vertical tab. */
  predicate IsSpace(c: char) {
    c == ' ' || c == '\t' || c == '\n' || c == '\r' || c == '\0' || c == '\U{000B}'
  }

  predicate AllSpace(s: string) {
    forall i :: 0 <= i < |s| ==> IsSpace(s[i])
  }

  /** PHP truthiness of a string: only "" and "0" are false. */
  predicate Truthy(s: string) {
    |s| != 0 && !(|s| == 1 && s[0] == '0')
  }

  /** The index of the first non-space character of s at or after i (|s| if none). */
  function LeadEnd(s: string, i: nat): (r: nat)
    requires i <= |s|
    ensures i <= r <= |s|
    decreases |s| - i
  {
    if i < |s| && IsSpace(s[i]) then LeadEnd(s, i + 1) else i
  }

  /** The index where the run of whitespace ending just before j starts. */
  function TrailStart(s: string, j: nat): (r: nat)
    requires j <= |s|
    ensures r <= j
  {
    if j > 0 && IsSpace(s[j - 1]) then TrailStart(s, j - 1) else j
  }

  lemma {:induction false} LeadEndMeaning(s: string, i: nat)
    requires i <= |s|
    ensures forall k :: i <= k < LeadEnd(s, i) ==> IsSpace(s[k])
    ensures LeadEnd(s, i) < |s| ==> !IsSpace(s[LeadEnd(s, i)])
    decreases |s| - i
  {
    if i < |s| && IsSpace(s[i]) {
      LeadEndMeaning(s, i + 1);
    }
  }

  lemma {:induction false} TrailStartMeaning(s: string, j: nat)
    requires j <= |s|
    ensures forall k :: TrailStart(s, j) <= k < j ==> IsSpace(s[k])
    ensures TrailStart(s, j) > 0 ==> !IsSpace(s[TrailStart(s, j) - 1])
  {
    if j > 0 && IsSpace(s[j - 1]) {
      TrailStartMeaning(s, j - 1);
    }
  }

  /** On a string that is not all whitespace the leading run ends before the trailing run starts. */
  lemma RunsApart(s: string)
    ensures LeadEnd(s, 0) == |s| <==> AllSpace(s)
    ensures LeadEnd(s, 0) < |s| ==> LeadEnd(s, 0) < TrailStart(s, |s|)
  {
    LeadEndMeaning(s, 0);
    TrailStartMeaning(s, |s|);
    var lc := LeadEnd(s, 0);
    if lc < |s| {
      assert !IsSpace(s[lc]);
    }
  }

  /** PHP trim(): s without its leading and trailing whitespace. */
  function Trim(s: string): string {
    var lc := LeadEnd(s, 0);
    var ts := TrailStart(s, |s|);
    if lc >= ts then [] else s[lc..ts]
  }

  /**
   * Trim removes exactly the leading and trailing whitespace: the result is
   * empty iff s is all whitespace, and otherwise starts and ends with a
   * non-space character (SpaceAroundMeaning puts the removed runs back).
   */
  lemma TrimMeaning(s: string)
    ensures Trim(s) == [] <==> AllSpace(s)
    ensures Trim(s) != [] ==> !IsSpace(Trim(s)[0]) && !IsSpace(Trim(s)[|Trim(s)| - 1])
  {
    RunsApart(s);
    LeadEndMeaning(s, 0);
    TrailStartMeaning(s, |s|);
  }

  /**
   * The two captures of ^(\s*)(?:.*\S)?(\s*)$ (with /s): the greedy first group
   * takes the leading whitespace, the optional middle ends at the last
   * non-whitespace character, the last group takes what follows it. On an
   * all-whitespace string the first group takes everything.
   */
  function SpaceAround(s: string): (string, string) {
    var lc := LeadEnd(s, 0);
    if lc == |s| then (s, []) else (s[..lc], s[TrailStart(s, |s|)..])
  }

  /** The captures are whitespace, and the string is them around its trim. */
  lemma SpaceAroundMeaning(s: string)
    ensures AllSpace(SpaceAround(s).0) && AllSpace(SpaceAround(s).1)
    ensures s == SpaceAround(s).0 + Trim(s) + SpaceAround(s).1
    ensures AllSpace(s) ==> SpaceAround(s).1 == []
  {
    RunsApart(s);
    LeadEndMeaning(s, 0);
    TrailStartMeaning(s, |s|);
    var lc := LeadEnd(s, 0);
    var ts := TrailStart(s, |s|);
    if lc < |s| {
      assert s == s[..lc] + s[lc..ts] + s[ts..];
    }
  }

  /** A whitespace-only string is never "0", so for it truthiness is non-emptiness. */
  lemma SpaceTruthy(s: string)
    requires AllSpace(s)
    ensures Truthy(s) <==> s != []
  {
    if s != [] {
      assert IsSpace(s[0]) && !IsSpace("0"[0]);
    }
  }

  /** A string that neither starts nor ends with whitespace is its own trim. */
  lemma TrimOfTrimmed(s: string)
    requires s != [] && !IsSpace(s[0]) && !IsSpace(s[|s| - 1])
    ensures Trim(s) == s
  {
  }

  /** Trimming is idempotent. */
  lemma TrimIdempotent(s: string)
    ensures Trim(Trim(s)) == Trim(s)
  {
    TrimMeaning(s);
    if Trim(s) != [] {
      TrimOfTrimmed(Trim(s));
    }
  }

  function DigitChar(d: nat): (c: char)
    requires d < 10
    ensures '0' <= c <= '9'
  {
    "0123456789"[d]
  }

  function DigitValue(c: char): (d: nat)
    requires '0' <= c <= '9'
    ensures d < 10
  {
    (c as int - '0' as int) as nat
  }

  predicate IsDigits(s: string) {
    forall i :: 0 <= i < |s| ==> '0' <= s[i] <= '9'
  }

  /** PHP's (string)$n for a non-negative integer: its decimal digits, without leading zeros. */
  function NatToString(n: nat): (s: string)
    ensures s != [] && IsDigits(s)
    ensures |s| > 1 ==> s[0] != '0'
    decreases n
  {
    if n < 10 then [DigitChar(n)] else NatToString(n / 10) + [DigitChar(n % 10)]
  }

  /** The integer PHP reads from a string of decimal digits (as when such a string indexes an array). */
  function DecimalValue(s: string): nat
    requires IsDigits(s)
  {
    if s == [] then 0 else DecimalValue(s[..|s| - 1]) * 10 + DigitValue(s[|s| - 1])
  }

  /** Reading back the decimal form of n gives n. */
  lemma {:induction false} DecimalRoundTrip(n: nat)
    ensures DecimalValue(NatToString(n)) == n
    decreases n
  {
    var s := NatToString(n);
    if n < 10 {
      assert s[..|s| - 1] == [];
    } else {
      DecimalRoundTrip(n / 10);
      assert s[..|s| - 1] == NatToString(n / 10);
    }
  }

  /** Distinct numbers have distinct decimal forms. */
  lemma NatToStringInjective(a: nat, b: nat)
    ensures NatToString(a) == NatToString(b) <==> a == b
  {
    if NatToString(a) == NatToString(b) {
      DecimalRoundTrip(a);
      DecimalRoundTrip(b);
    }
  }
}
