/**
 * `htmlspecialchars` with the default flags of PHP 8.1 and later (ENT_QUOTES): the five
 * characters `&`, `"`, `'`, `<` and `>` become entities and nothing else
 * changes. `Unescape` is its inverse (`htmlspecialchars_decode` on the
 * same five entities).
 */
module Html {

  /** The characters `htmlspecialchars` rewrites. */
  predicate NeedsEscape(c: char) {
    c == '&' || c == '"' || c == '\'' || c == '<' || c == '>'
  }

  /** Characters that could end an attribute value or open a tag. */
  predicate IsMarkupDelimiter(c: char) {
    c == '"' || c == '\'' || c == '<' || c == '>'
  }

  /** No character of `s` can end an attribute value or open a tag. */
  predicate Inert(s: string) {
    forall i :: 0 <= i < |s| ==> !IsMarkupDelimiter(s[i])
  }

  function EscapeChar(c: char): (r: string)
    ensures 1 <= |r| && Inert(r)
    ensures !NeedsEscape(c) ==> r == [c]
  {
    match c
    case '&' => "&amp;"
    case '"' => "&quot;"
    case '\'' => "&#039;"
    case '<' => "&lt;"
    case '>' => "&gt;"
    case _ => [c]
  }

  function Escape(s: string): (r: string)
    ensures Inert(r)
    ensures (forall i :: 0 <= i < |s| ==> !NeedsEscape(s[i])) ==> r == s
    ensures |s| <= |r|
  {
    if s == [] then []
    else
      var e := EscapeChar(s[0]);
      var rest := Escape(s[1..]);
      assert forall i :: 0 <= i < |e + rest| ==> (e + rest)[i] == if i < |e| then e[i] else rest[i - |e|];
      e + rest
  }

  predicate StartsWith(s: string, prefix: string) {
    |prefix| <= |s| && s[..|prefix|] == prefix
  }

  /** The character that the front of `s` encodes, and how many characters encode it. */
  function DecodeFirst(s: string): (r: (char, nat))
    requires s != []
    ensures 1 <= r.1 <= |s|
  {
    if s[0] != '&' then (s[0], 1)
    else if StartsWith(s, "&amp;") then ('&', 5)
    else if StartsWith(s, "&quot;") then ('"', 6)
    else if StartsWith(s, "&#039;") then ('\'', 6)
    else if StartsWith(s, "&lt;") then ('<', 4)
    else if StartsWith(s, "&gt;") then ('>', 4)
    else ('&', 1)
  }

  function Unescape(s: string): string
    decreases |s|
  {
    if s == [] then []
    else
      var (c, n) := DecodeFirst(s);
      [c] + Unescape(s[n..])
  }

  /** The encoding of one character is decoded back to that character, whatever follows it. */
  lemma DecodeFirstEscapeChar(c: char, rest: string)
    ensures EscapeChar(c) + rest != []
    ensures DecodeFirst(EscapeChar(c) + rest) == (c, |EscapeChar(c)|)
  {
    var e := EscapeChar(c);
    var s := e + rest;
    assert s[..|e|] == e;
    match c
    case '&' =>
    case '"' => assert s[1] == 'q';
    case '\'' => assert s[1] == '#';
    case '<' => assert s[1] == 'l';
    case '>' => assert s[1] == 'g';
    case _ =>
  }

  /** Escaping loses nothing: decoding recovers the original string. */
  lemma {:induction false} UnescapeEscape(s: string)
    ensures Unescape(Escape(s)) == s
  {
    if s != [] {
      var e := EscapeChar(s[0]);
      DecodeFirstEscapeChar(s[0], Escape(s[1..]));
      assert (e + Escape(s[1..]))[|e|..] == Escape(s[1..]);
      UnescapeEscape(s[1..]);
      assert [s[0]] + s[1..] == s;
    }
  }
}
