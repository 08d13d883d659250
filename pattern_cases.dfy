/**
 * Concrete inputs for the three patterns. Each is proved from the
 * declarative match predicates: exhibit the match, rule out earlier ones,
 * and the scanner's contract (leftmost, unique at its position) determines
 * what `preg_match` captures.
 */
module PatternCases {
  import opened Options
  import opened Ascii
  import opened Patterns

  const LabeledText: string := "code: ABC123"
  const MixedCaseText: string := "VerificatieCode:\tq1"
  const YourCodeIs: string := "Your code is 123456"
  const PlainWords: string := "ok XYZ789AB"
  const RegistrationUrl: string := "https://cloud.example/register/TOKEN/XYZ789AB"
  const NewlineUrl: string := "/r/ABCDEF\n"
  const ShortSegmentUrl: string := "/r/TOKEN"

  lemma LabeledTextMatches()
    ensures LabelMatch(LabeledText, 0, 6, 12)
  {
    assert EqualsCIAt(LabeledText, 0, "code");
  }

  /** "code: ABC123" yields the code ABC123. */
  lemma LabeledSimple()
    ensures MatchLabeled(LabeledText) == Some("ABC123")
  {
    LabeledTextMatches();
    MatchLabeledAt(LabeledText, 0, 6, 12);
    LabeledGroupIs();
  }

  lemma MixedCaseLabel()
    ensures EqualsCIAt(MixedCaseText, 0, "verificatiecode")
  {
  }

  lemma MixedCaseMatch()
    ensures LabelMatchWith(MixedCaseText, 0, "verificatiecode", 17, 19)
  {
    MixedCaseLabel();
  }

  /** The label and the group are matched whatever their case, and a tab separates as well as a space. */
  lemma LabeledLongLabelAnyCase()
    ensures MatchLabeled(MixedCaseText) == Some("q1")
  {
    MixedCaseMatch();
    MatchLabeledAt(MixedCaseText, 0, 17, 19);
    MixedCaseGroupIs();
  }

  lemma NextWordMatches()
    ensures LabelMatch(YourCodeIs, 5, 10, 12)
  {
    assert EqualsCIAt(YourCodeIs, 5, "code");
  }

  lemma NothingBeforeLabel()
    ensures forall j :: 0 <= j < 5 ==> FoldCase(YourCodeIs[j]) != 'c' && FoldCase(YourCodeIs[j]) != 'v'
  {
  }

  lemma NextWordIs()
    ensures YourCodeIs[10..12] == "is"
  {
  }

  /**
   * The label needs no colon: in "Your code is 123456" the word after
   * "code" is captured, so the code becomes "is" and the standalone
   * pattern, which would find 123456, is never consulted.
   */
  lemma LabeledTakesNextWord()
    ensures MatchLabeled(YourCodeIs) == Some("is")
  {
    NextWordMatches();
    NothingBeforeLabel();
    MatchLabeledAt(YourCodeIs, 5, 10, 12);
    NextWordIs();
  }

  /** "ok XYZ789AB" has no letter that could begin a label, so the labeled pattern finds nothing. */
  lemma NoLabelInPlainWords()
    ensures MatchLabeled(PlainWords) == None
  {
    assert forall j :: 0 <= j < |PlainWords| ==> FoldCase(PlainWords[j]) != 'c' && FoldCase(PlainWords[j]) != 'v';
    NoLabelWithoutInitials(PlainWords);
  }

  lemma PlainWordsMatch()
    ensures StandaloneMatch(PlainWords, 3, 11)
    ensures forall i, e :: 0 <= i < 3 ==> !StandaloneMatch(PlainWords, i, e)
  {
    var t := PlainWords;
    forall i, e | 0 <= i < 3 ensures !StandaloneMatch(t, i, e) {
      if i == 0 {
        assert !IsUpperOrDigit(t[1]);
      } else if i == 1 {
        assert IsWordChar(t[0]);
      } else {
        assert !IsUpperOrDigit(t[2]);
      }
    }
  }

  /** "ok XYZ789AB" yields the word XYZ789AB; the shorter, lower-case word before it does not qualify. */
  lemma StandaloneWord()
    ensures MatchStandalone(PlainWords) == Some("XYZ789AB")
  {
    PlainWordsMatch();
    MatchStandaloneAt(PlainWords, 3, 11);
    PlainWordsCodeIs();
  }

  lemma RegistrationUrlMatches()
    ensures UrlCodeMatch(RegistrationUrl, 36, 45)
  {
    assert RegistrationUrl[36] == '/';
  }

  lemma NewlineUrlMatches()
    ensures UrlCodeMatch(NewlineUrl, 2, 9)
  {
    assert NewlineUrl[2] == '/' && NewlineUrl[9] == '\n';
  }

  /** A registration link ending in a code yields that code; the shorter TOKEN segment does not. */
  lemma UrlTrailingSegment()
    ensures MatchUrlCode(RegistrationUrl) == Some("XYZ789AB")
  {
    RegistrationUrlMatches();
    MatchUrlCodeAt(RegistrationUrl, 36, 45);
    RegistrationSegmentIs();
  }

  /** `$` also matches before a final newline, which is not part of the capture. */
  lemma UrlBeforeFinalNewline()
    ensures MatchUrlCode(NewlineUrl) == Some("ABCDEF")
  {
    NewlineUrlMatches();
    MatchUrlCodeAt(NewlineUrl, 2, 9);
    NewlineSegmentIs();
  }

  /** A final segment of five characters is too short, and there is no other candidate. */
  lemma UrlSegmentTooShort()
    ensures MatchUrlCode(ShortSegmentUrl) == None
  {
  }

  lemma LabeledGroupIs()
    ensures LabeledText[6..12] == "ABC123"
  {
  }

  lemma MixedCaseGroupIs()
    ensures MixedCaseText[17..19] == "q1"
  {
  }

  lemma RegistrationSegmentIs()
    ensures RegistrationUrl[37..45] == "XYZ789AB"
  {
  }

  lemma NewlineSegmentIs()
    ensures NewlineUrl[3..9] == "ABCDEF"
  {
  }

  lemma PlainWordsCodeIs()
    ensures PlainWords[3..11] == "XYZ789AB"
  {
  }
}
