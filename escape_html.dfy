/** `escapeHtml` of frontend/src/utils/escapeHtml.js: every `&`, `<`, `>`,
    `"` and `'` of a string is replaced by its HTML entity, every other
    character is kept, and a value that is not a string is returned as
    it is. */
module EscapeHtml {

  /** The five characters the regular expression `[&<>"']` selects. */
  predicate IsSpecial(c: char) {
    c == '&' || c == '<' || c == '>' || c == '"' || c == '\''
  }

  predicate NoSpecial(s: string) {
    forall i :: 0 <= i < |s| ==> !IsSpecial(s[i])
  }

  /** The replacement the `switch` callback returns for one character. */
  function Entity(c: char): (r: string)
    ensures IsSpecial(c) <==> |r| > 1
    ensures IsSpecial(c) ==> r[0] == '&' && r[|r| - 1] == ';'
    ensures !IsSpecial(c) ==> r == [c]
  {
    if c == '&' then "&amp;"
    else if c == '<' then "&lt;"
    else if c == '>' then "&gt;"
    else if c == '"' then "&quot;"
    else if c == '\'' then "&#39;"
    else [c]
  }

  /** `str.replace(/[&<>"']/g, …)` on a string. The output never holds one
      of the four markup delimiters `<`, `>`, `"`, `'`. */
  function Escape(s: string): (r: string)
    ensures forall i :: 0 <= i < |r| ==> r[i] != '<' && r[i] != '>' && r[i] != '"' && r[i] != '\''
  {
    if s == [] then [] else Entity(s[0]) + Escape(s[1..])
  }

  /** A JavaScript value handed to `escapeHtml`: a string, or anything else. */
  datatype Value<T> = Text(s: string) | NonText(other: T)

  /** `escapeHtml(str)`: a value that is not a string comes back unchanged. */
  function EscapeValue<T>(v: Value<T>): (r: Value<T>)
    ensures v.NonText? ==> r == v
    ensures v.Text? ==> r.Text? && NoSpecial(v.s) == (r == v)
  {
    match v
    case NonText(_) => v
    case Text(s) => EscapeFixedPointIff(s); Text(Escape(s))
  }

  function Count(s: string, c: char): (n: nat)
    ensures n <= |s|
  {
    if s == [] then 0 else (if s[0] == c then 1 else 0) + Count(s[1..], c)
  }

  /** The number of characters escaping adds. */
  function Growth(s: string): nat {
    4 * Count(s, '&') + 3 * Count(s, '<') + 3 * Count(s, '>')
      + 5 * Count(s, '"') + 4 * Count(s, '\'')
  }

  /** Escaping is a per-character map, so it distributes over concatenation. */
  lemma {:induction false} EscapeAppend(a: string, b: string)
    ensures Escape(a + b) == Escape(a) + Escape(b)
  {
    if a != [] {
      assert (a + b)[1..] == a[1..] + b;
      EscapeAppend(a[1..], b);
    } else {
      assert a + b == b;
    }
  }

  /** The exact length: `|out| = |in| + 4·#& + 3·#< + 3·#> + 5·#" + 4·#'`. */
  lemma {:induction false} EscapeLength(s: string)
    ensures |Escape(s)| == |s| + Growth(s)
  {
    if s != [] {
      EscapeLength(s[1..]);
    }
  }

  lemma {:induction false} GrowthZeroIff(s: string)
    ensures Growth(s) == 0 <==> NoSpecial(s)
  {
    if s != [] {
      GrowthZeroIff(s[1..]);
      assert forall i :: 1 <= i < |s| ==> s[i] == s[1..][i - 1];
    }
  }

  /** A string is left as it is exactly when it holds none of the five
      special characters. */
  lemma EscapeFixedPointIff(s: string)
    ensures Escape(s) == s <==> NoSpecial(s)
  {
    EscapeLength(s);
    GrowthZeroIff(s);
    if NoSpecial(s) {
      EscapeNoSpecialIsIdentity(s);
    }
  }

  lemma {:induction false} EscapeNoSpecialIsIdentity(s: string)
    requires NoSpecial(s)
    ensures Escape(s) == s
  {
    if s != [] {
      assert NoSpecial(s[1..]) by {
        assert forall i :: 0 <= i < |s| - 1 ==> s[1..][i] == s[i + 1];
      }
      EscapeNoSpecialIsIdentity(s[1..]);
    }
  }

  /** Reads the five entities back; any other character stands for itself. */
  function Unescape(s: string): string
  {
    if s == [] then []
    else if s[0] == '&' && |s| >= 5 && s[..5] == "&amp;" then "&" + Unescape(s[5..])
    else if s[0] == '&' && |s| >= 4 && s[..4] == "&lt;" then "<" + Unescape(s[4..])
    else if s[0] == '&' && |s| >= 4 && s[..4] == "&gt;" then ">" + Unescape(s[4..])
    else if s[0] == '&' && |s| >= 6 && s[..6] == "&quot;" then "\"" + Unescape(s[6..])
    else if s[0] == '&' && |s| >= 5 && s[..5] == "&#39;" then "'" + Unescape(s[5..])
    else [s[0]] + Unescape(s[1..])
  }

  /** Decoding the entities recovers the input. */
  lemma {:induction false} UnescapeEscape(s: string)
    ensures Unescape(Escape(s)) == s
  {
    if s != [] {
      UnescapeEscape(s[1..]);
      UnescapeEntity(s[0], Escape(s[1..]));
      assert [s[0]] + s[1..] == s;
    }
  }

  /** The entity of one character decodes to that character, whatever
      follows it. */
  lemma UnescapeEntity(c: char, rest: string)
    ensures Unescape(Entity(c) + rest) == [c] + Unescape(rest)
  {
    var e := Entity(c) + rest;
    var n := |Entity(c)|;
    assert e[n..] == rest;
    if c == '&' {
      assert e[..5] == "&amp;";
    } else if c == '<' {
      UnescapeLessThan(rest);
    } else if c == '>' {
      UnescapeGreaterThan(rest);
    } else if c == '"' {
      UnescapeQuote(rest);
    } else if c == '\'' {
      UnescapeApostrophe(rest);
    } else {
      assert e[0] == c && e[1..] == rest;
    }
  }

  lemma UnescapeLessThan(rest: string)
    ensures Unescape("&lt;" + rest) == "<" + Unescape(rest)
  {
    var e := "&lt;" + rest;
    assert e[1] == 'l' && e[..4] == "&lt;" && e[4..] == rest;
  }

  lemma UnescapeGreaterThan(rest: string)
    ensures Unescape("&gt;" + rest) == ">" + Unescape(rest)
  {
    var e := "&gt;" + rest;
    assert e[1] == 'g' && e[..4] == "&gt;" && e[4..] == rest;
  }

  lemma UnescapeQuote(rest: string)
    ensures Unescape("&quot;" + rest) == "\"" + Unescape(rest)
  {
    var e := "&quot;" + rest;
    assert e[1] == 'q' && e[..6] == "&quot;" && e[6..] == rest;
    assert e[..5] != "&amp;" && e[..4] != "&lt;" && e[..4] != "&gt;";
  }

  lemma UnescapeApostrophe(rest: string)
    ensures Unescape("&#39;" + rest) == "'" + Unescape(rest)
  {
    var e := "&#39;" + rest;
    assert e[1] == '#' && e[..5] == "&#39;" && e[5..] == rest;
    assert e[..5] != "&amp;" && e[..4] != "&lt;" && e[..4] != "&gt;";
    assert !(|e| >= 6 && e[..6] == "&quot;") by {
      assert |e| < 6 || e[..6][1] == '#';
    }
  }

  /** Escaping is injective. */
  lemma EscapeInjective(a: string, b: string)
    requires Escape(a) == Escape(b)
    ensures a == b
  {
    UnescapeEscape(a);
    UnescapeEscape(b);
  }

  /** Every special character leaves an `&` in the output. */
  lemma EscapeMarksSpecial(s: string, i: int)
    requires 0 <= i < |s| && IsSpecial(s[i])
    ensures !NoSpecial(Escape(s))
  {
    assert s == s[..i] + ([s[i]] + s[i + 1..]);
    EscapeAppend(s[..i], [s[i]] + s[i + 1..]);
    EscapeAppend([s[i]], s[i + 1..]);
    assert Escape([s[i]]) == Entity(s[i]);
    var k := |Escape(s[..i])|;
    assert Escape(s)[k] == '&';
  }

  /** Escaping twice equals escaping once only for strings with nothing to
      escape: on any other string a second pass re-escapes the `&` of the
      first pass's entities. */
  lemma EscapeIdempotentIff(s: string)
    ensures Escape(Escape(s)) == Escape(s) <==> NoSpecial(s)
  {
    EscapeFixedPointIff(s);
    EscapeFixedPointIff(Escape(s));
    if !NoSpecial(s) {
      var i :| 0 <= i < |s| && IsSpecial(s[i]);
      EscapeMarksSpecial(s, i);
    }
  }

  /** The double escaping the component tests forbid, on `<`. */
  lemma DoubleEscapeOfLessThan()
    ensures Escape("<") == "&lt;"
    ensures Escape(Escape("<")) == "&amp;lt;"
    ensures Escape(Escape("<")) != Escape("<")
  {
    assert Escape("<") == Entity('<') + Escape([]);
    var once := "&lt;";
    assert once[1..] == "lt;" && once[2..] == "t;" && once[3..] == ";" && once[4..] == [];
    assert Escape(once[3..]) == ";";
    assert Escape(once[2..]) == "t;";
    assert Escape(once[1..]) == "lt;";
  }
}
