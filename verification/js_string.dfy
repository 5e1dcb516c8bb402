/** The JavaScript string operations the application relies on:
    `String.prototype.trim`, truthiness of an optional string, and
    `String.prototype.replace` with a string pattern and an empty replacement. */
module JsString {
  import opened Wrappers

  /** WhiteSpace and LineTerminator code points of ECMAScript, the set
      `trim` removes from both ends. */
  predicate IsWhitespace(c: char) {
    || c == ' ' || c == '\t' || c == '\n' || c == '\r'
    || c == '\U{000B}' || c == '\U{000C}' || c == '\U{00A0}' || c == '\U{1680}'
    || ('\U{2000}' <= c <= '\U{200A}')
    || c == '\U{2028}' || c == '\U{2029}' || c == '\U{202F}' || c == '\U{205F}'
    || c == '\U{3000}' || c == '\U{FEFF}'
  }

  predicate AllWhitespace(s: string) {
    forall i | 0 <= i < |s| :: IsWhitespace(s[i])
  }

  /** `!value` is false exactly for a present, non-empty string. */
  predicate Truthy(value: Option<string>) {
    value.Some? && value.value != ""
  }

  /** Index of the first non-whitespace character at or after `i`, or
      `|s|` when there is none. */
  function SkipWhitespace(s: string, i: nat): (n: nat)
    requires i <= |s|
    ensures i <= n <= |s|
    ensures forall k | i <= k < n :: IsWhitespace(s[k])
    ensures n < |s| ==> !IsWhitespace(s[n])
    decreases |s| - i
  {
    if i < |s| && IsWhitespace(s[i]) then SkipWhitespace(s, i + 1) else i
  }

  /** End of the last non-whitespace character in `s[lo..j]`, or `lo`
      when there is none. */
  function BackOverWhitespace(s: string, lo: nat, j: nat): (n: nat)
    requires lo <= j <= |s|
    ensures lo <= n <= j
    ensures forall k | n <= k < j :: IsWhitespace(s[k])
    ensures n > lo ==> !IsWhitespace(s[n - 1])
    decreases j
  {
    if j > lo && IsWhitespace(s[j - 1]) then BackOverWhitespace(s, lo, j - 1) else j
  }

  /** `s.trim()`: the text between the leading and the trailing whitespace. */
  function Trim(s: string): (r: string)
    ensures |r| <= |s|
    ensures |r| > 0 ==> !IsWhitespace(r[0]) && !IsWhitespace(r[|r| - 1])
  {
    var a := SkipWhitespace(s, 0);
    s[a..BackOverWhitespace(s, a, |s|)]
  }

  /** `trim` removes only whitespace: the result is an infix of `s` with
      nothing but whitespace on either side of it. */
  lemma TrimIsInfix(s: string)
    ensures exists a | 0 <= a <= |s| - |Trim(s)| ::
              && Trim(s) == s[a..a + |Trim(s)|]
              && AllWhitespace(s[..a])
              && AllWhitespace(s[a + |Trim(s)|..])
  {
    var a := SkipWhitespace(s, 0);
    var b := BackOverWhitespace(s, a, |s|);
    assert Trim(s) == s[a..b];
    assert AllWhitespace(s[..a]) by {
      forall k | 0 <= k < a ensures IsWhitespace(s[..a][k]) {
        assert s[..a][k] == s[k];
      }
    }
    assert AllWhitespace(s[b..]) by {
      forall k | 0 <= k < |s| - b ensures IsWhitespace(s[b..][k]) {
        assert s[b..][k] == s[b + k];
      }
    }
  }

  /** `s.trim()` is empty exactly when `s` is all whitespace. */
  lemma TrimEmptyIff(s: string)
    ensures Trim(s) == [] <==> AllWhitespace(s)
  {
    var a := SkipWhitespace(s, 0);
    if Trim(s) == [] {
      var b := BackOverWhitespace(s, a, |s|);
      assert a == b;
    }
  }

  /** A string with no whitespace at either end is its own trim. */
  lemma TrimOfTrimmed(s: string)
    requires |s| > 0 ==> !IsWhitespace(s[0]) && !IsWhitespace(s[|s| - 1])
    ensures Trim(s) == s
  {
    assert SkipWhitespace(s, 0) == 0;
    assert BackOverWhitespace(s, 0, |s|) == |s|;
  }

  /** Trimming twice is trimming once. */
  lemma TrimIdempotent(s: string)
    ensures Trim(Trim(s)) == Trim(s)
  {
    TrimOfTrimmed(Trim(s));
  }

  predicate OccursAt(s: string, pattern: string, i: int) {
    0 <= i && i + |pattern| <= |s| && s[i..i + |pattern|] == pattern
  }

  /** Position of the first occurrence of `pattern` at or after `from`. */
  function IndexOfFrom(s: string, pattern: string, from: nat): (r: Option<nat>)
    requires from <= |s|
    decreases |s| - from
    ensures r.Some? ==> from <= r.value && OccursAt(s, pattern, r.value)
    ensures r.Some? ==> forall j | from <= j < r.value :: !OccursAt(s, pattern, j)
    ensures r.None? ==> forall j | from <= j :: !OccursAt(s, pattern, j)
  {
    if OccursAt(s, pattern, from) then Some(from)
    else if from == |s| then None
    else IndexOfFrom(s, pattern, from + 1)
  }

  /** `s.indexOf(pattern)`. */
  function IndexOf(s: string, pattern: string): (r: Option<nat>)
    ensures r.Some? ==> OccursAt(s, pattern, r.value)
    ensures r.Some? ==> forall j | 0 <= j < r.value :: !OccursAt(s, pattern, j)
    ensures r.None? ==> forall j :: !OccursAt(s, pattern, j)
  {
    IndexOfFrom(s, pattern, 0)
  }

  /** `s.replace(pattern, '')`: a string pattern replaces only its first
      occurrence, wherever it is; without an occurrence `s` is returned whole. */
  function RemoveFirst(s: string, pattern: string): (r: string)
    ensures IndexOf(s, pattern).None? ==> r == s
    ensures IndexOf(s, pattern).Some? ==>
              var i := IndexOf(s, pattern).value;
              r == s[..i] + s[i + |pattern|..]
    ensures IndexOf(s, pattern).Some? ==> |r| == |s| - |pattern|
  {
    match IndexOf(s, pattern)
    case None => s
    case Some(i) => s[..i] + s[i + |pattern|..]
  }

  /** A string that starts with `pattern` loses exactly that prefix. */
  lemma RemoveFirstOfPrefixed(pattern: string, rest: string)
    ensures RemoveFirst(pattern + rest, pattern) == rest
  {
    var s := pattern + rest;
    assert OccursAt(s, pattern, 0) by { assert s[0..|pattern|] == pattern; }
    assert IndexOf(s, pattern) == Some(0);
    assert s[|pattern|..] == rest;
  }
}
