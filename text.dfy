/** String helpers of script.js: `escapeHTML` and JavaScript's `String.prototype.trim`. */
module Text {

  /** The entity `escapeHTML` writes for one character. */
  function EscapeChar(c: char): string {
    match c
    case '&' => "&amp;"
    case '<' => "&lt;"
    case '>' => "&gt;"
    case '"' => "&quot;"
    case '\'' => "&#39;"
    case _ => [c]
  }

  /** `escapeHTML`: every `& < > " '` becomes its entity, every other character stays. */
  function EscapeHTML(s: string): (r: string)
    ensures forall i :: 0 <= i < |r| ==> r[i] !in "<>\"'"
    ensures (forall i :: 0 <= i < |s| ==> s[i] !in "&<>\"'") ==> r == s
    ensures |r| >= |s|
    decreases |s|
  {
    if s == [] then [] else EscapeChar(s[0]) + EscapeHTML(s[1..])
  }

  /** Decoding of the five entities `escapeHTML` produces; any other character is copied. */
  function Unescape(r: string): string
    decreases |r|
  {
    if r == [] then []
    else if "&amp;" <= r then "&" + Unescape(r[5..])
    else if "&lt;" <= r then "<" + Unescape(r[4..])
    else if "&gt;" <= r then ">" + Unescape(r[4..])
    else if "&quot;" <= r then "\"" + Unescape(r[6..])
    else if "&#39;" <= r then "'" + Unescape(r[5..])
    else [r[0]] + Unescape(r[1..])
  }

  /** Decoding the entity of one character, followed by any text, yields that character first. */
  lemma UnescapeEscapeChar(c: char, rest: string)
    ensures Unescape(EscapeChar(c) + rest) == [c] + Unescape(rest)
  {
    var e := EscapeChar(c);
    var r := e + rest;
    assert r[|e|..] == rest;
    if c == '&' {
      assert "&amp;" <= r;
    } else if c == '<' {
      assert "&lt;" <= r && r[1] == 'l';
    } else if c == '>' {
      assert "&gt;" <= r && r[1] == 'g';
    } else if c == '"' {
      assert "&quot;" <= r && r[1] == 'q';
    } else if c == '\'' {
      assert "&#39;" <= r && r[1] == '#';
    } else {
      assert r[0] == c != '&';
    }
  }

  /** Escaping loses nothing: decoding the entities gives the original text back. */
  lemma {:induction false} UnescapeEscapeHTML(s: string)
    ensures Unescape(EscapeHTML(s)) == s
    decreases |s|
  {
    if s != [] {
      assert EscapeHTML(s) == EscapeChar(s[0]) + EscapeHTML(s[1..]);
      UnescapeEscapeChar(s[0], EscapeHTML(s[1..]));
      UnescapeEscapeHTML(s[1..]);
      assert [s[0]] + s[1..] == s;
    }
  }

  /** Position `i` of `r` begins one of the five entities `escapeHTML` writes. */
  predicate EntityAt(r: string, i: nat)
    requires i <= |r|
  {
    var t := r[i..];
    "&amp;" <= t || "&lt;" <= t || "&gt;" <= t || "&quot;" <= t || "&#39;" <= t
  }

  /** No `&` is left raw: every `&` in the escaped text begins an entity. With the
      no-raw-`<>"'` clause of `EscapeHTML` and the round trip, this pins the output down. */
  lemma {:induction false} EscapeHTMLAmpersands(s: string)
    ensures forall i :: 0 <= i < |EscapeHTML(s)| && EscapeHTML(s)[i] == '&' ==> EntityAt(EscapeHTML(s), i)
    decreases |s|
  {
    if s != [] {
      var e, t := EscapeChar(s[0]), EscapeHTML(s[1..]);
      var r := EscapeHTML(s);
      assert r == e + t;
      EscapeHTMLAmpersands(s[1..]);
      forall i | 0 <= i < |r| && r[i] == '&'
        ensures EntityAt(r, i)
      {
        if i < |e| {
          assert e[i] == '&';
          assert i == 0 && e <= r[i..];
        } else {
          assert r[i..] == t[i - |e|..];
          assert t[i - |e|] == '&';
        }
      }
    }
  }

  /** The characters JavaScript's `trim` removes (WhiteSpace and LineTerminator). */
  predicate IsWhitespace(c: char) {
    c == ' ' || c == '\t' || c == '\n' || c == '\r' || c == '\U{000B}' || c == '\U{000C}'
    || c == '\U{00A0}' || c == '\U{1680}' || ('\U{2000}' <= c <= '\U{200A}')
    || c == '\U{2028}' || c == '\U{2029}' || c == '\U{202F}' || c == '\U{205F}'
    || c == '\U{3000}' || c == '\U{FEFF}'
  }

  /** Drops leading whitespace: the result is a suffix of `s`, everything cut was
      whitespace, and the result does not start with whitespace. */
  function TrimStart(s: string): (r: string)
    ensures |r| <= |s| && r == s[|s| - |r|..]
    ensures forall i :: 0 <= i < |s| - |r| ==> IsWhitespace(s[i])
    ensures r == [] || !IsWhitespace(r[0])
    decreases |s|
  {
    if s != [] && IsWhitespace(s[0]) then TrimStart(s[1..]) else s
  }

  /** Drops trailing whitespace: the result is a prefix of `s`, everything cut was
      whitespace, and the result does not end with whitespace. */
  function TrimEnd(s: string): (r: string)
    ensures |r| <= |s| && r == s[..|r|]
    ensures forall i :: |r| <= i < |s| ==> IsWhitespace(s[i])
    ensures r == [] || !IsWhitespace(r[|r| - 1])
    decreases |s|
  {
    if s != [] && IsWhitespace(s[|s| - 1]) then TrimEnd(s[..|s| - 1]) else s
  }

  /** JavaScript's `String.prototype.trim`. */
  function Trim(s: string): string {
    TrimEnd(TrimStart(s))
  }

  /** A name is empty after trimming exactly when it is made of whitespace only. */
  lemma TrimEmptyIff(s: string)
    ensures Trim(s) == [] <==> forall i :: 0 <= i < |s| ==> IsWhitespace(s[i])
  {
    var t := TrimStart(s);
    if Trim(s) == [] {
      assert t == [];
    } else {
      var r := Trim(s);
      assert r[0] == t[0] == s[|s| - |t|];
    }
  }

  /** Trimming keeps the text between the whitespace, unchanged, and trimming twice
      is trimming once. */
  lemma TrimIdempotent(s: string)
    ensures Trim(Trim(s)) == Trim(s)
  {
    var r := Trim(s);
    assert r == [] || (!IsWhitespace(r[0]) && !IsWhitespace(r[|r| - 1]));
    assert TrimStart(r) == r;
    assert TrimEnd(r) == r;
  }
}
