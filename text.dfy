/**
 * The JavaScript string built-ins the terminal scripts rely on, stated over `seq<char>`:
 * white space as `String.prototype.trim` and the regular-expression class `\s` see it,
 * `trim`, `toLowerCase` (ASCII letters only), `indexOf`, and the decimal rendering of a
 * count that string concatenation performs.
 */
module Text {

  /** ECMAScript WhiteSpace and LineTerminator code points (tab to carriage return, space, and the Unicode spaces). */
  predicate IsSpace(c: char) {
    c == ' ' || ('\t' <= c <= '\r') || ('\U{00A0}' <= c && IsWideSpace(c))
  }

  /** The white-space code points above the ASCII range. */
  predicate IsWideSpace(c: char) {
    || c == '\U{00A0}' || c == '\U{1680}' || ('\U{2000}' <= c <= '\U{200A}')
    || c == '\U{2028}' || c == '\U{2029}' || c == '\U{202F}' || c == '\U{205F}'
    || c == '\U{3000}' || c == '\U{FEFF}'
  }

  predicate AllSpace(s: string) {
    forall i :: 0 <= i < |s| ==> IsSpace(s[i])
  }

  predicate NoSpace(s: string) {
    forall i :: 0 <= i < |s| ==> !IsSpace(s[i])
  }

  lemma NoSpaceConcat(a: string, b: string)
    requires NoSpace(a) && NoSpace(b)
    ensures NoSpace(a + b)
  {
    forall i | 0 <= i < |a + b| ensures !IsSpace((a + b)[i]) {
      if i >= |a| { assert (a + b)[i] == b[i - |a|]; }
    }
  }

  /** No white space at either end. */
  predicate Trimmed(s: string) {
    s == [] || (!IsSpace(s[0]) && !IsSpace(s[|s| - 1]))
  }

  /** The start of the trailing run of white space in `s[lo..hi]`. */
  function TrailingSpace(s: string, lo: nat, hi: nat): (j: nat)
    requires lo <= hi <= |s|
    ensures lo <= j <= hi && forall k :: j <= k < hi ==> IsSpace(s[k])
    ensures j == lo || !IsSpace(s[j - 1])
    decreases hi
  {
    if lo < hi && IsSpace(s[hi - 1]) then TrailingSpace(s, lo, hi - 1) else hi
  }

  /** `String.prototype.trim`: the white space at both ends is cut off. */
  function Trim(s: string): (r: string)
    ensures Trimmed(r) && |r| <= |s|
  {
    var i := SkipSpace(s, 0);
    s[i..TrailingSpace(s, i, |s|)]
  }

  /**
   * Trim is the only such cut: whenever `s[i..j]` has no white space at its ends and only
   * white space lies outside it, `s[i..j]` is what trim returns.
   */
  lemma TrimUnique(s: string, i: nat, j: nat)
    requires i <= j <= |s| && AllSpace(s[..i]) && AllSpace(s[j..])
    requires i < j && !IsSpace(s[i]) && !IsSpace(s[j - 1])
    ensures Trim(s) == s[i..j]
  {
    var a := SkipSpace(s, 0);
    assert forall k :: 0 <= k < a ==> s[..a][k] == s[k];
    assert forall k :: 0 <= k < i ==> s[..i][k] == s[k];
    assert a == i;
    var b := TrailingSpace(s, a, |s|);
    assert forall k :: j <= k < |s| ==> s[j..][k - j] == s[k];
  }

  /** Trimming a string without white space at its ends changes nothing. */
  lemma TrimTrimmed(s: string)
    requires Trimmed(s)
    ensures Trim(s) == s
  {
    if s != [] {
      TrimUnique(s, 0, |s|);
    }
  }

  /** A string that is nothing but white space trims to the empty string. */
  lemma TrimAllSpace(s: string)
    requires AllSpace(s)
    ensures Trim(s) == []
  {
  }

  /** `toLowerCase` on one character; only the ASCII capitals are mapped. */
  function LowerChar(c: char): char {
    if 'A' <= c <= 'Z' then (c as int + 32) as char else c
  }

  /** ASCII `toLowerCase`: no capital is left, and only capitals change; LowerMapsCapitals says into what. */
  function Lower(s: string): (r: string)
    ensures |r| == |s|
    ensures NoCapital(r)
    ensures forall i :: 0 <= i < |s| ==> 'A' <= s[i] <= 'Z' || r[i] == s[i]
  {
    seq(|s|, i requires 0 <= i < |s| => LowerChar(s[i]))
  }

  /** Each capital becomes its small letter, 32 code points further on. */
  lemma LowerMapsCapitals(s: string)
    ensures forall i :: 0 <= i < |s| && 'A' <= s[i] <= 'Z' ==> Lower(s)[i] as int == s[i] as int + 32
  {
  }

  /** No ASCII space (U+0020) in `s`. */
  predicate NoBlank(s: string) {
    forall i :: 0 <= i < |s| ==> s[i] != ' '
  }

  /** Lower-casing neither creates nor removes the ASCII space and leaves `/` alone. */
  lemma LowerKeepsBlank(s: string)
    ensures NoBlank(Lower(s)) <==> NoBlank(s)
    ensures s != [] && s[0] == '/' ==> Lower(s)[0] == '/'
  {
    assert forall i :: 0 <= i < |s| ==> (Lower(s)[i] == ' ' <==> s[i] == ' ');
  }

  /** No ASCII capital letter in `s`. */
  predicate NoCapital(s: string) {
    forall i :: 0 <= i < |s| ==> !('A' <= s[i] <= 'Z')
  }

  /** A string without capitals is its own lower-cased form. */
  lemma LowerOfLower(s: string)
    requires NoCapital(s)
    ensures Lower(s) == s
  {
    assert forall i :: 0 <= i < |s| ==> Lower(s)[i] == s[i];
  }

  /** Lower-casing twice is lower-casing once. */
  lemma LowerIdempotent(s: string)
    ensures Lower(Lower(s)) == Lower(s)
  {
    LowerOfLower(Lower(s));
  }

  /** `s` begins with `prefix`. */
  predicate StartsWith(s: string, prefix: string) {
    |prefix| <= |s| && s[..|prefix|] == prefix
  }

  lemma PrefixOfConcat(a: string, b: string)
    ensures StartsWith(a + b, a)
  {
    assert (a + b)[..|a|] == a;
  }

  /** The three parts of a concatenation read back by slicing. */
  lemma ConcatSlices(a: string, b: string, c: string)
    ensures (a + b + c)[..|a|] == a && (a + b + c)[|a|..|a| + |b|] == b && (a + b + c)[|a|..] == b + c
  {
  }

  /** `sub` occurs in `s` starting at index `i`. */
  predicate OccursAt(sub: string, s: string, i: int) {
    0 <= i && i + |sub| <= |s| && s[i..i + |sub|] == sub
  }

  /** The reference notion of substring. */
  ghost predicate Contains(s: string, sub: string) {
    exists i :: OccursAt(sub, s, i)
  }

  /** `indexOf(sub, from)`: the first occurrence at or after `from`, or -1 when there is none. */
  function IndexOfFrom(s: string, sub: string, from: nat): (r: int)
    requires from <= |s|
    ensures r == -1 || (from <= r && OccursAt(sub, s, r))
    ensures r == -1 ==> forall i :: from <= i ==> !OccursAt(sub, s, i)
    ensures r != -1 ==> forall i :: from <= i < r ==> !OccursAt(sub, s, i)
    decreases |s| - from
  {
    if from + |sub| > |s| then -1
    else if s[from..from + |sub|] == sub then from
    else if from == |s| then -1
    else IndexOfFrom(s, sub, from + 1)
  }

  /** `indexOf(sub)`: the index of the first occurrence of `sub` in `s`, or -1. */
  function IndexOf(s: string, sub: string): (r: int)
    ensures r == -1 <==> !Contains(s, sub)
    ensures r != -1 ==> OccursAt(sub, s, r) && forall i :: 0 <= i < r ==> !OccursAt(sub, s, i)
  {
    IndexOfFrom(s, sub, 0)
  }

  /** The end of the run of white space that starts at `j`. */
  function SkipSpace(s: string, j: nat): (r: nat)
    requires j <= |s|
    ensures j <= r <= |s| && AllSpace(s[j..r])
    ensures r == |s| || !IsSpace(s[r])
    decreases |s| - j
  {
    if j < |s| && IsSpace(s[j]) then SkipSpace(s, j + 1) else j
  }

  /** The end of the run of non-white-space characters that starts at `j`. */
  function SkipToken(s: string, j: nat): (r: nat)
    requires j <= |s|
    ensures j <= r <= |s| && NoSpace(s[j..r])
    ensures r == |s| || IsSpace(s[r])
    decreases |s| - j
  {
    if j < |s| && !IsSpace(s[j]) then SkipToken(s, j + 1) else j
  }

  /** A run of white space from `j` that ends at the end or at a non-space character is what SkipSpace finds. */
  lemma SkipSpaceEnds(s: string, j: nat, m: nat)
    requires j <= m <= |s| && (forall k :: j <= k < m ==> IsSpace(s[k])) && (m == |s| || !IsSpace(s[m]))
    ensures SkipSpace(s, j) == m
  {
    var r := SkipSpace(s, j);
    assert forall k :: j <= k < r ==> s[j..r][k - j] == s[k];
  }

  /** A run of non-white-space from `j` that ends at the end or at white space is what SkipToken finds. */
  lemma SkipTokenEnds(s: string, j: nat, m: nat)
    requires j <= m <= |s| && (forall k :: j <= k < m ==> !IsSpace(s[k])) && (m == |s| || IsSpace(s[m]))
    ensures SkipToken(s, j) == m
  {
    var r := SkipToken(s, j);
    assert forall k :: j <= k < r ==> s[j..r][k - j] == s[k];
  }

  predicate IsDigit(c: char) {
    '0' <= c <= '9'
  }

  /** The number a string of decimal digits denotes. */
  function DigitsValue(s: string): nat
    requires forall i :: 0 <= i < |s| ==> IsDigit(s[i])
  {
    if s == [] then 0
    else
      assert IsDigit(s[|s| - 1]);
      DigitsValue(s[..|s| - 1]) * 10 + (s[|s| - 1] as int - '0' as int)
  }

  /** The decimal form of a count, as `"" + n` writes it: digits only, no leading zero. */
  function NatToString(n: nat): (r: string)
    ensures r != [] && forall i :: 0 <= i < |r| ==> IsDigit(r[i])
    ensures r[0] == '0' ==> r == "0"
  {
    if n < 10 then ["0123456789"[n]] else NatToString(n / 10) + ["0123456789"[n % 10]]
  }

  /** The decimal form reads back as the number written. */
  lemma {:induction false} NatToStringValue(n: nat)
    ensures DigitsValue(NatToString(n)) == n
  {
    var r := NatToString(n);
    if n >= 10 {
      NatToStringValue(n / 10);
      assert r[..|r| - 1] == NatToString(n / 10);
    }
  }
}
