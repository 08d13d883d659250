/**
 * The three pieces of PHP string semantics the template relies on:
 * `empty()` and `?:` on strings (where "0" counts as empty) and `stripos`.
 */
module Php {
  import opened Options
  import opened Ascii

  /** `empty($s)` for a string: true for "" and for "0", PHP's two falsy strings. */
  predicate IsEmpty(s: string) { s == "" || s == "0" }

  /** `$a ?: $b` on strings. */
  function OrElse(a: string, b: string): string {
    if IsEmpty(a) then b else a
  }

  /**
   * `stripos($hay, $needle)`: the first position at or after `from` where
   * `needle` occurs, ignoring ASCII case; `None` stands for PHP's `false`.
   */
  function StriposFrom(hay: string, needle: string, from: nat): (r: Option<nat>)
    requires from <= |hay|
    ensures r.Some? ==> from <= r.value && EqualsCIAt(hay, r.value, needle)
    ensures r.Some? ==> forall i :: from <= i < r.value ==> !EqualsCIAt(hay, i, needle)
    ensures r.None? ==> forall i :: from <= i ==> !EqualsCIAt(hay, i, needle)
    decreases |hay| - from
  {
    if EqualsCIAt(hay, from, needle) then Some(from)
    else if from + |needle| >= |hay| then None
    else StriposFrom(hay, needle, from + 1)
  }

  function Stripos(hay: string, needle: string): Option<nat> {
    StriposFrom(hay, needle, 0)
  }

  /** `stripos($hay, $needle) !== false`. */
  predicate ContainsCI(hay: string, needle: string) {
    Stripos(hay, needle).Some?
  }

  /** `stripos` finds `needle` exactly when it occurs somewhere, whatever the case of either string. */
  lemma ContainsCIMeans(hay: string, needle: string)
    ensures ContainsCI(hay, needle) <==> exists i :: EqualsCIAt(hay, i, needle)
  {
    if !ContainsCI(hay, needle) {
      forall i ensures !EqualsCIAt(hay, i, needle) {}
    }
  }

  /**
   * A needle cannot be found in a string none of whose characters folds to
   * the same letter as the needle's first character.
   */
  lemma MissingInitial(hay: string, needle: string, letters: set<char>)
    requires 0 < |needle| && FoldCase(needle[0]) !in letters
    requires forall j :: 0 <= j < |hay| ==> FoldCase(hay[j]) in letters
    ensures !ContainsCI(hay, needle)
  {
    forall i | 0 <= i ensures !EqualsCIAt(hay, i, needle) {
      if i + |needle| <= |hay| {
        assert FoldCase(hay[i + 0]) != FoldCase(needle[0]);
      }
    }
  }
}
