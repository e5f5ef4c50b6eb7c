/**
 * The pieces of JavaScript's built-in behaviour that the services rely on:
 * the white-space class of `\s` and `String.prototype.trim`, `Math.round`,
 * the decimal rendering of a number in a template string,
 * `String.prototype.includes`/`startsWith`, the ASCII case folding of a
 * `/i` regular expression, the truthiness of an optional string, and the
 * shape of a parsed `URL`.
 */
module Js {
  import opened Wrappers

  /** JavaScript's truthiness of an optional string: present and not empty. */
  predicate Truthy(s: Option<string>) {
    s.Some? && s.value != ""
  }

  /** The characters `\s` matches, which are also the ones `trim()` removes
      (ECMAScript WhiteSpace and LineTerminator). */
  predicate IsSpace(c: char) {
    || c == ' ' || c == '\t' || c == '\n' || c == '\r' || c == '\U{000B}' || c == '\U{000C}'
    || c == '\U{00A0}' || c == '\U{1680}' || ('\U{2000}' <= c <= '\U{200A}')
    || c == '\U{2028}' || c == '\U{2029}' || c == '\U{202F}' || c == '\U{205F}'
    || c == '\U{3000}' || c == '\U{FEFF}'
  }

  /** `Math.round`: the nearest integer, halves rounded towards +infinity. */
  function Round(x: real): (r: int)
    ensures (r as real) - 0.5 <= x < (r as real) + 0.5
  {
    (x + 0.5).Floor
  }

  function DigitChar(d: nat): (c: char)
    requires d < 10
    ensures '0' <= c <= '9' && (c as int) - ('0' as int) == d
  {
    "0123456789"[d]
  }

  predicate IsDigits(s: string) {
    forall i :: 0 <= i < |s| ==> '0' <= s[i] <= '9'
  }

  /** The value of a string of decimal digits. */
  function DigitsValue(s: string): nat
    requires IsDigits(s)
  {
    if s == [] then 0 else 10 * DigitsValue(s[..|s| - 1]) + ((s[|s| - 1] as int) - ('0' as int))
  }

  /** A non-negative integer as a template string renders it. */
  function NatToString(n: nat): (s: string)
    ensures |s| >= 1 && IsDigits(s)
    ensures DigitsValue(s) == n
    ensures |s| > 1 ==> s[0] != '0'
  {
    if n < 10 then [DigitChar(n)]
    else
      var s := NatToString(n / 10) + [DigitChar(n % 10)];
      assert s[..|s| - 1] == NatToString(n / 10);
      s
  }

  /** Two different numbers never render the same, so ids made from different clock readings differ. */
  lemma NatToStringInjective(m: nat, n: nat)
    ensures NatToString(m) == NatToString(n) <==> m == n
  {
  }

  /** An integer as a template string renders it. */
  function IntToString(n: int): (s: string)
    ensures |s| >= 1
    ensures n >= 0 ==> s == NatToString(n)
    ensures n < 0 ==> s == "-" + NatToString(-n)
  {
    if n < 0 then "-" + NatToString(-n) else NatToString(n)
  }

  /** No `c` anywhere in `s`. */
  predicate Lacks(s: string, c: char) {
    forall i :: 0 <= i < |s| ==> s[i] != c
  }

  /** `m` inserted into `s` before position `n`. */
  function InsertAt<T>(s: seq<T>, n: int, m: seq<T>): (r: seq<T>)
    requires 0 <= n <= |s|
    ensures |r| == |s| + |m|
  {
    s[..n] + m + s[n..]
  }

  /** Where each element of an insertion comes from. */
  lemma InsertAtIndex<T>(s: seq<T>, n: int, m: seq<T>)
    requires 0 <= n <= |s|
    ensures var r := InsertAt(s, n, m);
            && r[..n] == s[..n] && r[n..n + |m|] == m && r[n + |m|..] == s[n..]
            && (forall i :: 0 <= i < n ==> r[i] == s[i])
            && (forall i :: n <= i < n + |m| ==> r[i] == m[i - n])
            && (forall i :: n + |m| <= i < |r| ==> r[i] == s[i - |m|])
  {
    var r := InsertAt(s, n, m);
    assert r[..n] == s[..n];
    assert r[n..n + |m|] == m;
    assert r[n + |m|..] == s[n..];
  }

  lemma InsertLacks(s: string, n: int, m: string, c: char)
    requires 0 <= n <= |s| && Lacks(s, c) && Lacks(m, c)
    ensures Lacks(InsertAt(s, n, m), c)
  {
    InsertAtIndex(s, n, m);
  }

  predicate StartsWith(s: string, prefix: string) {
    |prefix| <= |s| && s[..|prefix|] == prefix
  }

  /** `String.prototype.includes`. */
  predicate Includes(s: string, part: string)
    decreases |s|
  {
    StartsWith(s, part) || (|s| > 0 && Includes(s[1..], part))
  }

  /** The part occurs in `s` starting at index `i`. */
  predicate OccursAt(s: string, part: string, i: int) {
    0 <= i && i + |part| <= |s| && s[i..i + |part|] == part
  }

  /** `includes` holds exactly when the part occurs at some position. */
  lemma {:induction false} IncludesAt(s: string, part: string)
    ensures Includes(s, part) <==> exists i :: OccursAt(s, part, i)
  {
    if StartsWith(s, part) {
      assert OccursAt(s, part, 0);
    } else if |s| > 0 {
      IncludesAt(s[1..], part);
      if Includes(s[1..], part) {
        var i :| OccursAt(s[1..], part, i);
        assert s[i + 1..i + 1 + |part|] == s[1..][i..i + |part|];
        assert OccursAt(s, part, i + 1);
      }
      if exists i :: OccursAt(s, part, i) {
        var i :| OccursAt(s, part, i);
        assert i != 0;
        assert s[1..][i - 1..i - 1 + |part|] == s[i..i + |part|];
        assert OccursAt(s[1..], part, i - 1);
      }
    }
  }

  /** A string includes every prefix of it. */
  lemma PrefixIncluded(s: string, prefix: string)
    requires StartsWith(s, prefix)
    ensures Includes(s, prefix)
  {
  }

  /** The case folding of a `/i` regular expression without the `u` flag: ASCII letters only
      (a non-ASCII character never folds onto an ASCII one). */
  function AsciiUpper(c: char): (u: char)
    ensures ('a' <= c <= 'z') ==> (u as int) == (c as int) - 32
    ensures !('a' <= c <= 'z') ==> u == c
  {
    if 'a' <= c <= 'z' then ((c as int) - 32) as char else c
  }

  /** `toUpperCase` restricted to ASCII text. */
  function AsciiUpperString(s: string): (r: string)
    ensures |r| == |s| && forall i :: 0 <= i < |s| ==> r[i] == AsciiUpper(s[i])
  {
    if s == [] then [] else [AsciiUpper(s[0])] + AsciiUpperString(s[1..])
  }

  /** The parts of a WHATWG `URL` the services read. */
  datatype Url = Url(protocol: string, pathname: string)

  /** What `new URL(text)` gives: a parsed URL, or the `TypeError` it throws. */
  datatype UrlParse = Parsed(url: Url) | Invalid(message: string)
}
