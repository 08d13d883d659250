/**
 * The three fixed PCRE patterns of the template, each written as a scanner
 * and proved against a declarative description of what the pattern matches:
 *
 *   labeled     /(?:code|verificatiecode)[:\s]+([A-Za-z0-9]+)/i
 *   standalone  /\b([A-Z0-9]{6,10})\b/
 *   URL code    /\/([A-Za-z0-9]{6,12})$/
 *
 * `preg_match` reports the leftmost match and, at that position, the match
 * its backtracking search finds first; for these patterns the match at a
 * position is unique, so "leftmost" and "unique at its position" together
 * pin the capture down.
 */
module Patterns {
  import opened Options
  import opened Ascii

  /** A match: the whole match starts at `at`, capture group 1 is `[start, end)`. */
  datatype Hit = Hit(at: nat, start: nat, end: nat)

  // ---------------------------------------------------------------------
  // Labeled code: /(?:code|verificatiecode)[:\s]+([A-Za-z0-9]+)/i

  /** The class `[:\s]`. */
  predicate IsLabelSep(c: char) { c == ':' || IsSpace(c) }

  /**
   * The labeled pattern matches at `i` using alternative `keyword`, with the
   * separators filling `[i + |keyword|, k)` and the group `[k, e)`. Greedy
   * `+` makes `e` the end of the alphanumeric run.
   */
  predicate LabelMatchWith(t: string, i: nat, keyword: string, k: nat, e: nat) {
    i + |keyword| < k < e <= |t| &&
    EqualsCIAt(t, i, keyword) &&
    (forall m :: i + |keyword| <= m < k ==> IsLabelSep(t[m])) &&
    (forall m :: k <= m < e ==> IsAlnum(t[m])) &&
    (e == |t| || !IsAlnum(t[e]))
  }

  predicate LabelMatch(t: string, i: nat, k: nat, e: nat) {
    LabelMatchWith(t, i, "code", k, e) || LabelMatchWith(t, i, "verificatiecode", k, e)
  }

  /** Separators then a group, after a label that ends at `j`. */
  function AfterLabel(t: string, i: nat, j: nat): Option<Hit>
    requires j <= |t|
  {
    var k := SpanEnd(t, j, IsLabelSep);
    if j < k < |t| && IsAlnum(t[k]) then Some(Hit(i, k, SpanEnd(t, k, IsAlnum))) else None
  }

  /** The labeled pattern anchored at `i`, alternatives tried in their written order. */
  function LabelAt(t: string, i: nat): (r: Option<Hit>)
    requires i <= |t|
    ensures r.Some? ==> r.value.at == i && LabelMatch(t, i, r.value.start, r.value.end)
  {
    if EqualsCIAt(t, i, "code") then AfterLabel(t, i, i + 4)
    else if EqualsCIAt(t, i, "verificatiecode") then AfterLabel(t, i, i + 15)
    else None
  }

  /** A labeled match starts with a letter that folds to `c` or `v`. */
  lemma LabelMatchInitial(t: string, i: nat, k: nat, e: nat)
    requires LabelMatch(t, i, k, e)
    ensures i < |t| && (FoldCase(t[i]) == 'c' || FoldCase(t[i]) == 'v')
  {
    assert FoldCase(t[i + 0]) == FoldCase("code"[0]) || FoldCase(t[i + 0]) == FoldCase("verificatiecode"[0]);
  }

  /** Every match at `i` is the one `LabelAt` reports. */
  lemma LabelAtComplete(t: string, i: nat, k: nat, e: nat)
    requires LabelMatch(t, i, k, e)
    ensures LabelAt(t, i) == Some(Hit(i, k, e))
  {
    var j := if LabelMatchWith(t, i, "code", k, e) then i + 4 else i + 15;
    if !LabelMatchWith(t, i, "code", k, e) {
      // the two alternatives differ in their first letter
      assert FoldCase(t[i + 0]) == FoldCase("verificatiecode"[0]) == 'v';
      assert FoldCase("code"[0]) == 'c';
    }
    SpanEndIs(t, j, k, IsLabelSep);
    SpanEndIs(t, k, e, IsAlnum);
  }

  /**
   * `LabelAt` decides the labeled pattern at `i`: it reports nothing
   * exactly when no match starts there, and a match with given group
   * bounds exists exactly when it reports those bounds.
   */
  lemma LabelAtExact(t: string, i: nat)
    requires i <= |t|
    ensures LabelAt(t, i).None? <==> NoLabelAt(t, i)
    ensures forall k, e :: LabelMatch(t, i, k, e) <==> LabelAt(t, i) == Some(Hit(i, k, e))
  {
    forall k, e | LabelMatch(t, i, k, e) ensures LabelAt(t, i) == Some(Hit(i, k, e)) {
      LabelAtComplete(t, i, k, e);
    }
  }

  /** No labeled match starts at `i`. */
  ghost predicate NoLabelAt(t: string, i: nat) {
    forall k, e :: !LabelMatch(t, i, k, e)
  }

  /**
   * `r` is what a leftmost search from `from` must report: a match with no
   * match starting earlier and no other group possible at its position,
   * or nothing when there is no match at all.
   */
  ghost predicate LeftmostLabel(t: string, from: nat, r: Option<Hit>) {
    match r
    case Some(h) =>
      from <= h.at && LabelMatch(t, h.at, h.start, h.end) &&
      (forall i :: from <= i < h.at ==> NoLabelAt(t, i)) &&
      (forall k, e :: LabelMatch(t, h.at, k, e) ==> k == h.start && e == h.end)
    case None => forall i :: from <= i ==> NoLabelAt(t, i)
  }

  lemma LabelFoundAt(t: string, from: nat, h: Hit)
    requires from <= |t| && LabelAt(t, from) == Some(h)
    ensures LeftmostLabel(t, from, Some(h))
  {
    forall k, e | LabelMatch(t, from, k, e) ensures k == h.start && e == h.end {
      LabelAtComplete(t, from, k, e);
    }
  }

  lemma NoLabelFoundAt(t: string, from: nat, r: Option<Hit>)
    requires from <= |t| && LabelAt(t, from).None?
    requires from == |t| ==> r.None?
    requires from < |t| ==> LeftmostLabel(t, from + 1, r)
    ensures LeftmostLabel(t, from, r)
  {
    forall k, e ensures !LabelMatch(t, from, k, e) {
      if LabelMatch(t, from, k, e) {
        LabelAtComplete(t, from, k, e);
      }
    }
  }

  /** The leftmost labeled match at or after `from`. */
  function FindLabeled(t: string, from: nat): (r: Option<Hit>)
    requires from <= |t|
    ensures LeftmostLabel(t, from, r)
    decreases |t| - from
  {
    match LabelAt(t, from)
    case Some(h) =>
      LabelFoundAt(t, from, h);
      Some(h)
    case None =>
      var r := if from == |t| then None else FindLabeled(t, from + 1);
      NoLabelFoundAt(t, from, r);
      r
  }

  /**
   * The `verificatiecode` alternative never changes what is captured: its
   * last four letters are themselves a `code` label followed by the same
   * separators and group.
   */
  lemma LongLabelContainsShort(t: string, i: nat, k: nat, e: nat)
    requires LabelMatchWith(t, i, "verificatiecode", k, e)
    ensures LabelMatchWith(t, i + 11, "code", k, e)
  {
    forall j | 0 <= j < 4 ensures FoldCase(t[i + 11 + j]) == FoldCase("code"[j]) {
      assert FoldCase(t[i + (11 + j)]) == FoldCase("verificatiecode"[11 + j]);
    }
  }

  // ---------------------------------------------------------------------
  // Standalone code: /\b([A-Z0-9]{6,10})\b/

  /**
   * The standalone pattern matches `[i, e)`: 6 to 10 characters of
   * `[A-Z0-9]` with a word boundary on both sides. Since those characters
   * are word characters, the match is a whole word.
   */
  predicate StandaloneMatch(t: string, i: nat, e: nat) {
    i + 6 <= e <= i + 10 && e <= |t| &&
    (i == 0 || !IsWordChar(t[i - 1])) &&
    (e == |t| || !IsWordChar(t[e])) &&
    forall m :: i <= m < e ==> IsUpperOrDigit(t[m])
  }

  /** No word straddles position `i`. */
  predicate NotInsideWord(t: string, i: nat) {
    i <= |t| && (i == 0 || i == |t| || !IsWordChar(t[i - 1]) || !IsWordChar(t[i]))
  }

  /** Inside the word `[b, e)` the only possible standalone match is the whole word. */
  lemma StandaloneInWord(t: string, b: nat, e: nat)
    requires b < e <= |t|
    requires b == 0 || !IsWordChar(t[b - 1])
    requires forall m :: b <= m < e ==> IsWordChar(t[m])
    requires e == |t| || !IsWordChar(t[e])
    ensures forall i, f :: b <= i < e && StandaloneMatch(t, i, f) ==> i == b && f == e
  {
    forall i, f | b <= i < e && StandaloneMatch(t, i, f) ensures i == b && f == e {
      SpanEndIs(t, b, e, IsWordChar);
      SpanEndIs(t, b, f, IsWordChar);
    }
  }

  /** No standalone match starts at `i`. */
  ghost predicate NoStandaloneAt(t: string, i: nat) {
    forall e :: !StandaloneMatch(t, i, e)
  }

  /** `r` is what a leftmost search from `from` must report, as for `LeftmostLabel`. */
  ghost predicate LeftmostStandalone(t: string, from: nat, r: Option<Hit>) {
    match r
    case Some(h) =>
      from <= h.at == h.start && StandaloneMatch(t, h.start, h.end) &&
      (forall i :: from <= i < h.start ==> NoStandaloneAt(t, i)) &&
      (forall e :: StandaloneMatch(t, h.start, e) ==> e == h.end)
    case None => forall i :: from <= i ==> NoStandaloneAt(t, i)
  }

  /** Nothing starts where the text has no word character. */
  lemma NoStandaloneOutsideWord(t: string, from: nat, r: Option<Hit>)
    requires from <= |t|
    requires from == |t| ==> r.None?
    requires from < |t| ==> !IsWordChar(t[from]) && LeftmostStandalone(t, from + 1, r)
    ensures LeftmostStandalone(t, from, r)
  {
    assert NoStandaloneAt(t, from);
  }

  /** The word `[from, e)` either is the match or holds none, and the search goes on after it. */
  lemma StandaloneWordAt(t: string, from: nat, e: nat, r: Option<Hit>)
    requires NotInsideWord(t, from) && from < |t| && IsWordChar(t[from])
    requires e == SpanEnd(t, from, IsWordChar)
    requires r == Some(Hit(from, from, e)) || LeftmostStandalone(t, e, r)
    requires r == Some(Hit(from, from, e)) <==>
      from + 6 <= e <= from + 10 && forall m :: from <= m < e ==> IsUpperOrDigit(t[m])
    ensures LeftmostStandalone(t, from, r)
  {
    StandaloneInWord(t, from, e);
    forall i | from <= i < e && r != Some(Hit(from, from, e)) ensures NoStandaloneAt(t, i) {
    }
  }

  /** The leftmost standalone match at or after `from`. */
  function FindStandalone(t: string, from: nat): (r: Option<Hit>)
    requires NotInsideWord(t, from)
    ensures LeftmostStandalone(t, from, r)
    decreases |t| - from
  {
    if from == |t| || !IsWordChar(t[from]) then
      var r := if from == |t| then None else FindStandalone(t, from + 1);
      NoStandaloneOutsideWord(t, from, r);
      r
    else
      var e := SpanEnd(t, from, IsWordChar);
      var r := if from + 6 <= e <= from + 10 && (forall m :: from <= m < e ==> IsUpperOrDigit(t[m]))
        then Some(Hit(from, from, e))
        else FindStandalone(t, e);
      StandaloneWordAt(t, from, e, r);
      r
  }

  // ---------------------------------------------------------------------
  // Code at the end of a URL: /\/([A-Za-z0-9]{6,12})$/

  /** PCRE's `$` without the multiline or dollar-end-only options: the end, or just before a final newline. */
  predicate AtSubjectEnd(t: string, e: nat) {
    e == |t| || (e + 1 == |t| && t[e] == '\n')
  }

  /** The URL pattern matches with its `/` at `i` and its group `[i + 1, e)`. */
  predicate UrlCodeMatch(t: string, i: nat, e: nat) {
    i < |t| && t[i] == '/' && i + 7 <= e <= i + 13 && e <= |t| && AtSubjectEnd(t, e) &&
    forall m :: i < m < e ==> IsAlnum(t[m])
  }

  /** Where `$` lets the group end: before a final newline if there is one. */
  function CodeEnd(t: string): (e: nat)
    ensures e <= |t| && AtSubjectEnd(t, e)
  {
    if 0 < |t| && t[|t| - 1] == '\n' then |t| - 1 else |t|
  }

  /** The group must end at `CodeEnd(t)`, its `/` just before the alphanumeric run ending there. */
  function FindUrlCode(t: string): (r: Option<Hit>)
    ensures r.Some? ==> r.value.start == r.value.at + 1 && UrlCodeMatch(t, r.value.at, r.value.end)
  {
    var e := CodeEnd(t);
    var b := SpanStart(t, e, IsAlnum);
    if b + 6 <= e <= b + 12 && 0 < b && t[b - 1] == '/' then Some(Hit(b - 1, b, e)) else None
  }

  /** There is at most one URL match, and `FindUrlCode` finds it. */
  lemma FindUrlCodeComplete(t: string, i: nat, e: nat)
    requires UrlCodeMatch(t, i, e)
    ensures FindUrlCode(t) == Some(Hit(i, i + 1, e))
  {
    if e + 1 == |t| {
      assert CodeEnd(t) == e;
    } else {
      assert !IsAlnum('\n');
      assert CodeEnd(t) == e;
    }
    SpanStartIs(t, i + 1, e, IsAlnum);
  }

  // ---------------------------------------------------------------------
  // What `preg_match` leaves in `$matches[1]`

  function MatchLabeled(t: string): (r: Option<string>)
    ensures r.Some? ==> 0 < |r.value| && forall m :: 0 <= m < |r.value| ==> IsAlnum(r.value[m])
  {
    match FindLabeled(t, 0)
    case Some(h) => Some(t[h.start..h.end])
    case None => None
  }

  function MatchStandalone(t: string): (r: Option<string>)
    ensures r.Some? ==> 6 <= |r.value| <= 10 && forall m :: 0 <= m < |r.value| ==> IsUpperOrDigit(r.value[m])
  {
    match FindStandalone(t, 0)
    case Some(h) => Some(t[h.start..h.end])
    case None => None
  }

  function MatchUrlCode(url: string): (r: Option<string>)
    ensures r.Some? ==> 6 <= |r.value| <= 12 && forall m :: 0 <= m < |r.value| ==> IsAlnum(r.value[m])
    ensures r.Some? ==> exists p :: url == p + "/" + r.value || url == p + "/" + r.value + "\n"
  {
    match FindUrlCode(url)
    case Some(h) =>
      var p := url[..h.at];
      assert url == p + "/" + url[h.start..h.end] || url == p + "/" + url[h.start..h.end] + "\n";
      Some(url[h.start..h.end])
    case None => None
  }

  /**
   * A labeled match at `i` with no letter before it that could begin a
   * label is the one `preg_match` reports.
   */
  lemma MatchLabeledAt(t: string, i: nat, k: nat, e: nat)
    requires LabelMatch(t, i, k, e)
    requires forall j :: 0 <= j < i ==> FoldCase(t[j]) != 'c' && FoldCase(t[j]) != 'v'
    ensures MatchLabeled(t) == Some(t[k..e])
  {
    assert !NoLabelAt(t, i);
    var h := FindLabeled(t, 0).value;
    LabelMatchInitial(t, h.at, h.start, h.end);
    assert h.at == i;
  }

  /** A text with no letter that could begin a label has no labeled capture. */
  lemma NoLabelWithoutInitials(t: string)
    requires forall j :: 0 <= j < |t| ==> FoldCase(t[j]) != 'c' && FoldCase(t[j]) != 'v'
    ensures MatchLabeled(t) == None
  {
    if FindLabeled(t, 0).Some? {
      var h := FindLabeled(t, 0).value;
      LabelMatchInitial(t, h.at, h.start, h.end);
    }
  }

  /** A standalone match with none before it is what `preg_match` captures. */
  lemma MatchStandaloneAt(t: string, i: nat, e: nat)
    requires StandaloneMatch(t, i, e)
    requires forall j, f :: 0 <= j < i ==> !StandaloneMatch(t, j, f)
    ensures MatchStandalone(t) == Some(t[i..e])
  {
    assert !NoStandaloneAt(t, i);
    var h := FindStandalone(t, 0).value;
    assert h.start == i;
  }

  /** The URL match, when there is one, is what `preg_match` captures. */
  lemma MatchUrlCodeAt(t: string, i: nat, e: nat)
    requires UrlCodeMatch(t, i, e)
    ensures MatchUrlCode(t) == Some(t[i + 1..e])
  {
    FindUrlCodeComplete(t, i, e);
  }
}
