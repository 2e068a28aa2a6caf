/** String primitives of JavaScript that the validators rely on: the
    whitespace set of `String.prototype.trim` and `\s`, `trim` itself,
    ASCII case folding (what a `/i` regular expression without the `u`
    flag does to the ASCII tokens used here) and substring search. */
module JsText {

  datatype Option<+T> = None | Some(value: T)

  /** WhiteSpace and LineTerminator code points of ECMA-262: the set that
      `trim` removes and that `\s` matches. */
  predicate IsJsWhitespace(c: char) {
    || c == '\U{9}' || c == '\U{A}' || c == '\U{B}' || c == '\U{C}' || c == '\U{D}'
    || c == ' ' || c == '\U{A0}' || c == '\U{1680}'
    || ('\U{2000}' <= c <= '\U{200A}')
    || c == '\U{2028}' || c == '\U{2029}' || c == '\U{202F}' || c == '\U{205F}'
    || c == '\U{3000}' || c == '\U{FEFF}'
  }

  predicate AllWhitespace(s: string) {
    forall i :: 0 <= i < |s| ==> IsJsWhitespace(s[i])
  }

  /** The first index from `i` on that holds no whitespace, or `|s|`. */
  function SkipWhitespace(s: string, i: nat): (k: nat)
    requires i <= |s|
    ensures i <= k <= |s|
    ensures forall j {:trigger IsJsWhitespace(s[j])} :: i <= j < k ==> IsJsWhitespace(s[j])
    ensures k < |s| ==> !IsJsWhitespace(s[k])
    decreases |s| - i
  {
    if i < |s| && IsJsWhitespace(s[i]) then SkipWhitespace(s, i + 1) else i
  }

  /** Scanning `s[lo..hi]` from the right: the index just after its last
      non-whitespace character, or `lo`. */
  function SkipWhitespaceBack(s: string, lo: nat, hi: nat): (k: nat)
    requires lo <= hi <= |s|
    ensures lo <= k <= hi
    ensures forall j {:trigger IsJsWhitespace(s[j])} :: k <= j < hi ==> IsJsWhitespace(s[j])
    ensures lo < k ==> !IsJsWhitespace(s[k - 1])
    decreases hi - lo
  {
    if lo < hi && IsJsWhitespace(s[hi - 1]) then SkipWhitespaceBack(s, lo, hi - 1) else hi
  }

  lemma WhitespacePrefix(s: string, k: int)
    requires 0 <= k <= |s| && forall j :: 0 <= j < k ==> IsJsWhitespace(s[j])
    ensures AllWhitespace(s[..k])
  {
    assert forall j :: 0 <= j < k ==> s[..k][j] == s[j];
  }

  lemma WhitespaceSuffix(s: string, k: int)
    requires 0 <= k <= |s| && forall j :: k <= j < |s| ==> IsJsWhitespace(s[j])
    ensures AllWhitespace(s[k..])
  {
    assert forall j :: 0 <= j < |s| - k ==> s[k..][j] == s[k + j];
  }

  /** `s.trim()`: the result is a contiguous slice of `s`, everything cut
      off on either side is whitespace, and a non-empty result neither
      starts nor ends with whitespace. */
  function Trim(s: string): (r: string)
    ensures exists a :: 0 <= a <= a + |r| <= |s| && r == s[a..a + |r|]
                        && AllWhitespace(s[..a]) && AllWhitespace(s[a + |r|..])
    ensures r != [] ==> !IsJsWhitespace(r[0]) && !IsJsWhitespace(r[|r| - 1])
  {
    var a := SkipWhitespace(s, 0);
    var b := SkipWhitespaceBack(s, a, |s|);
    WhitespacePrefix(s, a);
    WhitespaceSuffix(s, b);
    assert a < b ==> s[a..b][0] == s[a] && s[a..b][b - a - 1] == s[b - 1];
    s[a..b]
  }

  /** Where the trimmed string starts in `s`. */
  lemma TrimOffset(s: string) returns (a: int)
    ensures 0 <= a <= a + |Trim(s)| <= |s| && Trim(s) == s[a..a + |Trim(s)|]
  {
    a := SkipWhitespace(s, 0);
  }

  /** `!s.trim()`: the string is empty once trimmed. */
  predicate IsBlank(s: string) {
    Trim(s) == []
  }

  lemma BlankIffAllWhitespace(s: string)
    ensures IsBlank(s) <==> AllWhitespace(s)
  {
    var a := SkipWhitespace(s, 0);
    var b := SkipWhitespaceBack(s, a, |s|);
    assert Trim(s) == s[a..b];
    if !AllWhitespace(s) {
      var j :| 0 <= j < |s| && !IsJsWhitespace(s[j]);
      assert a <= j;
      assert a < b;
    }
  }

  /** Trimming twice is trimming once. */
  lemma TrimIdempotent(s: string)
    ensures Trim(Trim(s)) == Trim(s)
  {
    var r := Trim(s);
    if r != [] {
      assert SkipWhitespace(r, 0) == 0;
      assert SkipWhitespaceBack(r, 0, |r|) == |r|;
      assert r[0..|r|] == r;
    }
  }

  /** A blank string stays blank and a non-blank one non-blank under trim,
      and trimming never lengthens. */
  lemma TrimKeepsContent(s: string)
    ensures |Trim(s)| <= |s|
    ensures IsBlank(Trim(s)) <==> IsBlank(s)
  {
    TrimIdempotent(s);
  }

  /** ASCII case folding; no other code point is changed. */
  function LowerAscii(c: char): (r: char)
    ensures 'A' <= c <= 'Z' ==> r as int == c as int + 32
    ensures !('A' <= c <= 'Z') ==> r == c
  {
    if 'A' <= c <= 'Z' then (c as int + 32) as char else c
  }

  function LowerString(s: string): (r: string)
    ensures |r| == |s|
    ensures forall i :: 0 <= i < |s| ==> r[i] == LowerAscii(s[i])
  {
    seq(|s|, i requires 0 <= i < |s| => LowerAscii(s[i]))
  }

  lemma LowerStringSlice(s: string, a: int, b: int)
    requires 0 <= a <= b <= |s|
    ensures LowerString(s[a..b]) == LowerString(s)[a..b]
  {
  }

  predicate StartsWith(s: string, p: string) {
    |p| <= |s| && s[..|p|] == p
  }

  /** `t` occurs in `s` at position `i`. */
  predicate OccursAt(s: string, t: string, i: int) {
    0 <= i && i + |t| <= |s| && s[i..i + |t|] == t
  }

  /** Substring test, scanning `s` from the left. */
  predicate Contains(s: string, t: string)
    decreases |s|
  {
    StartsWith(s, t) || (s != [] && Contains(s[1..], t))
  }

  lemma {:induction false} ContainsIff(s: string, t: string)
    ensures Contains(s, t) <==> exists i :: OccursAt(s, t, i)
    decreases |s|
  {
    if StartsWith(s, t) {
      assert OccursAt(s, t, 0);
    } else if s == [] {
      assert forall i :: !OccursAt(s, t, i);
    } else {
      ContainsIff(s[1..], t);
      assert !OccursAt(s, t, 0);
      forall i | OccursAt(s[1..], t, i) ensures OccursAt(s, t, i + 1) {
        assert s[1..][i..i + |t|] == s[i + 1..i + 1 + |t|];
      }
      forall i | OccursAt(s, t, i) ensures OccursAt(s[1..], t, i - 1) {
        assert s[1..][i - 1..i - 1 + |t|] == s[i..i + |t|];
      }
    }
  }

  /** Every character of a string found in `s` is a character of `s`. */
  lemma ContainsOnlyCharsOf(s: string, t: string, c: char)
    requires Contains(s, t) && c in t
    ensures c in s
  {
    ContainsIff(s, t);
    var i :| OccursAt(s, t, i);
    var j :| 0 <= j < |t| && t[j] == c;
    assert s[i..i + |t|][j] == s[i + j];
  }

  /** What occurs in a slice of `s` occurs in `s`. */
  lemma ContainsInSlice(s: string, a: int, b: int, t: string)
    requires 0 <= a <= b <= |s|
    requires Contains(s[a..b], t)
    ensures Contains(s, t)
  {
    ContainsIff(s[a..b], t);
    ContainsIff(s, t);
    var i :| OccursAt(s[a..b], t, i);
    assert s[a + i..a + i + |t|] == t by {
      forall k | 0 <= k < |t| ensures s[a + i + k] == t[k] {
        assert s[a..b][i..i + |t|][k] == t[k];
      }
    }
    assert OccursAt(s, t, a + i);
  }

  /** Case-insensitive substring test for an all-lower-case ASCII `t`. */
  predicate ContainsIgnoringCase(s: string, t: string) {
    Contains(LowerString(s), t)
  }
}
