/** Character classes and string helpers shared by every grammar: the whitespace
    class the grammars delete or collapse, the ASCII case maps, and prefix/suffix
    and trimming helpers. */
module Text {
  import opened Wrappers

  /** U+00A0, the non-breaking space that protects spaces inside quoted values. */
  const Nbsp: char := '\U{00A0}'

  /** NEMO_WHITE_SPACE: space, tab, newline, carriage return and the non-breaking space. */
  predicate IsWhiteSpace(c: char) {
    c == ' ' || c == '\t' || c == '\n' || c == '\r' || c == Nbsp
  }

  predicate AllWhiteSpace(s: string) {
    forall i :: 0 <= i < |s| ==> IsWhiteSpace(s[i])
  }

  /** No whitespace at either end (the empty string counts as trimmed). */
  predicate Trimmed(s: string) {
    |s| == 0 || (!IsWhiteSpace(s[0]) && !IsWhiteSpace(s[|s| - 1]))
  }

  predicate IsUpper(c: char) { 'A' <= c <= 'Z' }
  predicate IsLower(c: char) { 'a' <= c <= 'z' }

  /** TO_LOWER: a one-character transducer defined only on the ASCII capitals. */
  function ToLower(c: char): (r: Option<char>)
    ensures r.Some? <==> IsUpper(c)
    ensures r.Some? ==> IsLower(r.value) && r.value as int == c as int + 32
  {
    if IsUpper(c) then Some((c as int + 32) as char) else None
  }

  /** TO_UPPER: the inversion of TO_LOWER, defined only on the ASCII small letters. */
  function ToUpper(c: char): (r: Option<char>)
    ensures r.Some? <==> IsLower(c)
    ensures r.Some? ==> IsUpper(r.value) && r.value as int + 32 == c as int
  {
    if IsLower(c) then Some((c as int - 32) as char) else None
  }

  /** TO_UPPER is exactly the inverse relation of TO_LOWER. */
  lemma ToUpperInvertsToLower(c: char, d: char)
    ensures ToLower(c) == Some(d) <==> ToUpper(d) == Some(c)
  {
  }

  /** Upper-casing of one character as Python's `str.upper` does it on ASCII text. */
  function UpperChar(c: char): char {
    if IsLower(c) then ToUpper(c).value else c
  }

  /** Lower-casing of one character as Python's `str.lower` does it on ASCII text. */
  function LowerChar(c: char): char {
    if IsUpper(c) then ToLower(c).value else c
  }

  predicate StartsWith(s: string, prefix: string) {
    |prefix| <= |s| && s[..|prefix|] == prefix
  }

  predicate EndsWith(s: string, suffix: string) {
    |suffix| <= |s| && s[|s| - |suffix|..] == suffix
  }

  /** Length of the longest all-whitespace prefix (what `delete_space` consumes greedily). */
  function SkipWhiteSpace(s: string): (k: nat)
    ensures k <= |s|
    ensures AllWhiteSpace(s[..k])
    ensures k < |s| ==> !IsWhiteSpace(s[k])
  {
    if |s| == 0 || !IsWhiteSpace(s[0]) then 0
    else
      var k := 1 + SkipWhiteSpace(s[1..]);
      assert s[..k] == [s[0]] + s[1..][..k - 1];
      k
  }

  /** Length of `s` without its longest all-whitespace suffix. */
  function TrailingStart(s: string): (j: nat)
    ensures j <= |s|
    ensures AllWhiteSpace(s[j..])
    ensures j > 0 ==> !IsWhiteSpace(s[j - 1])
  {
    if |s| == 0 || !IsWhiteSpace(s[|s| - 1]) then |s|
    else
      var j := TrailingStart(s[..|s| - 1]);
      assert s[j..] == s[..|s| - 1][j..] + [s[|s| - 1]];
      j
  }

  /** The bounds of `s` with leading and trailing whitespace removed. */
  function StripBounds(s: string): (b: (nat, nat))
    ensures b.0 <= b.1 <= |s|
    ensures AllWhiteSpace(s[..b.0]) && AllWhiteSpace(s[b.1..])
    ensures Trimmed(s[b.0..b.1])
  {
    var i := SkipWhiteSpace(s);
    if i == |s| then (0, 0)
    else
      var j := TrailingStart(s);
      (i, j)
  }

  function Strip(s: string): string {
    var b := StripBounds(s);
    s[b.0..b.1]
  }

  /** A non-empty core with non-whitespace ends can be surrounded by whitespace in
      only one way: its bounds are the strip bounds. */
  lemma StripUnique(s: string, i: nat, j: nat)
    requires i < j <= |s|
    requires AllWhiteSpace(s[..i]) && AllWhiteSpace(s[j..])
    requires !IsWhiteSpace(s[i]) && !IsWhiteSpace(s[j - 1])
    ensures StripBounds(s) == (i, j)
  {
  }
}
