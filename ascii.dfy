/**
 * ASCII character classes and the case folding used by PHP's `stripos`
 * and by PCRE in its default (non-UTF, C-locale) mode. A PHP string is a
 * sequence of bytes; here each byte is one `char`, and a character outside
 * ASCII belongs to none of the classes below.
 */
module Ascii {

  predicate IsUpper(c: char) { 'A' <= c <= 'Z' }

  predicate IsLower(c: char) { 'a' <= c <= 'z' }

  predicate IsDigit(c: char) { '0' <= c <= '9' }

  /** The class `[A-Za-z0-9]`. */
  predicate IsAlnum(c: char) { IsUpper(c) || IsLower(c) || IsDigit(c) }

  /** The class `[A-Z0-9]` (no case-insensitive flag). */
  predicate IsUpperOrDigit(c: char) { IsUpper(c) || IsDigit(c) }

  /** PCRE's word characters `\w`: letters, digits and the underscore. */
  predicate IsWordChar(c: char) { IsAlnum(c) || c == '_' }

  /** PCRE's `\s`: space, horizontal tab, line feed, vertical tab, form feed, carriage return. */
  predicate IsSpace(c: char) { c == ' ' || 9 <= c as int <= 13 }

  /** ASCII lower-casing; every other character is left alone. */
  function FoldCase(c: char): (d: char)
    ensures IsUpper(c) ==> IsLower(d) && d as int == c as int + 32
    ensures !IsUpper(c) ==> d == c
  {
    if IsUpper(c) then (c as int + 32) as char else c
  }

  /** `needle` occurs in `hay` at position `i`, comparing ASCII case-insensitively. */
  predicate EqualsCIAt(hay: string, i: nat, needle: string) {
    i + |needle| <= |hay| &&
    forall j :: 0 <= j < |needle| ==> FoldCase(hay[i + j]) == FoldCase(needle[j])
  }

  /**
   * The end of the longest run of characters satisfying `p` that starts at `i`:
   * how far a greedy `p*` advances from `i`.
   */
  function SpanEnd(s: string, i: nat, p: char -> bool): (e: nat)
    requires i <= |s|
    ensures i <= e <= |s|
    ensures forall k :: i <= k < e ==> p(s[k])
    ensures e < |s| ==> !p(s[e])
    decreases |s| - i
  {
    if i < |s| && p(s[i]) then SpanEnd(s, i + 1, p) else i
  }

  /** The start of the longest run of characters satisfying `p` that ends at `e`. */
  function SpanStart(s: string, e: nat, p: char -> bool): (b: nat)
    requires e <= |s|
    ensures b <= e
    ensures forall k :: b <= k < e ==> p(s[k])
    ensures 0 < b ==> !p(s[b - 1])
  {
    if 0 < e && p(s[e - 1]) then SpanStart(s, e - 1, p) else e
  }

  /** A run of `p` characters from `i` to `e` that cannot be extended to the right is the span from `i`. */
  lemma SpanEndIs(s: string, i: nat, e: nat, p: char -> bool)
    requires i <= e <= |s|
    requires forall k :: i <= k < e ==> p(s[k])
    requires e < |s| ==> !p(s[e])
    ensures SpanEnd(s, i, p) == e
  {
  }

  /** A run of `p` characters from `b` to `e` that cannot be extended to the left is the span ending at `e`. */
  lemma SpanStartIs(s: string, b: nat, e: nat, p: char -> bool)
    requires b <= e <= |s|
    requires forall k :: b <= k < e ==> p(s[k])
    requires 0 < b ==> !p(s[b - 1])
    ensures SpanStart(s, e, p) == b
  {
  }
}
