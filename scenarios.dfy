/**
 * Call sequences the host performs, checked against the contracts of
 * `CustomEmailTemplate` alone, as a client of the class sees them.
 */
module Scenarios {
  import opened Ascii
  import opened Php
  import opened Html
  import opened PatternCases
  import opened CustomEmail

  /** A keyword found at a known position is found by `stripos`. */
  lemma FoundAt(hay: string, i: nat, keyword: string)
    requires EqualsCIAt(hay, i, keyword)
    ensures ContainsCI(hay, keyword)
  {
  }

  const PlainSubject: string := "Hello"
  const WelkomSubject: string := "Welkom!"
  const ConfirmSubject: string := "Please CONFIRM your account"

  /** A subject whose letters all avoid the keywords' initials mentions none of them. */
  lemma NoneMentioned(subject: string, keywords: seq<string>, letters: set<char>)
    requires forall j :: 0 <= j < |subject| ==> FoldCase(subject[j]) in letters
    requires forall i :: 0 <= i < |keywords| ==> 0 < |keywords[i]| && FoldCase(keywords[i][0]) !in letters
    ensures !MentionsAny(subject, keywords)
  {
    forall i | 0 <= i < |keywords| ensures !ContainsCI(subject, keywords[i]) {
      MissingInitial(subject, keywords[i], letters);
    }
  }

  lemma VerificationInitials()
    ensures forall i :: 0 <= i < |VerificationKeywords| ==>
      0 < |VerificationKeywords[i]| && FoldCase(VerificationKeywords[i][0]) in {'v', 'r', 'c'}
  {
  }

  lemma WelcomeInitials()
    ensures forall i :: 0 <= i < |WelcomeKeywords| ==>
      0 < |WelcomeKeywords[i]| && FoldCase(WelcomeKeywords[i][0]) in {'w', 'a'}
  {
  }

  /** "Hello" mentions neither list. */
  lemma PlainSubjectHasNoKeyword()
    ensures !MentionsAny(PlainSubject, VerificationKeywords)
    ensures !MentionsAny(PlainSubject, WelcomeKeywords)
  {
    var letters := {'h', 'e', 'l', 'o'};
    assert forall j :: 0 <= j < |PlainSubject| ==> FoldCase(PlainSubject[j]) in letters;
    VerificationInitials();
    WelcomeInitials();
    NoneMentioned(PlainSubject, VerificationKeywords, letters);
    NoneMentioned(PlainSubject, WelcomeKeywords, letters);
  }

  /** "Welkom!" is a welcome subject and mentions no verification keyword. */
  lemma WelkomIsWelcome()
    ensures !MentionsAny(WelkomSubject, VerificationKeywords)
    ensures MentionsAny(WelkomSubject, WelcomeKeywords)
  {
    var letters := {'w', 'e', 'l', 'k', 'o', 'm', '!'};
    assert forall j :: 0 <= j < |WelkomSubject| ==> FoldCase(WelkomSubject[j]) in letters;
    VerificationInitials();
    NoneMentioned(WelkomSubject, VerificationKeywords, letters);
    FoundAt(WelkomSubject, 0, "welkom");
    assert ContainsCI(WelkomSubject, WelcomeKeywords[1]);
  }

  lemma ConfirmIsVerification()
    ensures MentionsAny(ConfirmSubject, VerificationKeywords)
  {
    FoundAt(ConfirmSubject, 7, "confirm");
    assert ContainsCI(ConfirmSubject, VerificationKeywords[2]);
  }

  /**
   * A registration mail: the subject is replaced, the first code in the
   * body is kept whatever paragraph follows it, the first button's URL
   * becomes the link (the server URL if that URL is falsy), and both
   * renderings show them.
   */
  method RegistrationMail(baseUrl: string, logo: string, laterText: string, url: string)
    returns (html: HtmlPage, text: TextPage)
    ensures text == VerificationText("ABC123", OrElse(url, baseUrl))
    ensures html.VerificationHtml? && Unescape(html.code) == text.code && Unescape(html.href) == text.link
  {
    var t := new CustomEmailTemplate(baseUrl);
    ConfirmIsVerification();
    t.SetSubject(ConfirmSubject);
    assert t.forwarded == [Subject(VerificationSubject)];
    LabeledSimple();
    t.AddBodyText(LabeledText, "");
    assert t.verificationCode == "ABC123";
    t.AddBodyText(laterText, "");
    t.AddBodyButton("Complete registration", url, "");
    assert t.verificationCode == "ABC123";
    html := t.RenderHtml(logo);
    text := t.RenderText();
  }

  /**
   * Without a labeled code or a button, the standalone word is the code and
   * the link falls back to the server URL.
   */
  method CodeWithoutButton(baseUrl: string) returns (text: TextPage)
    ensures text == VerificationText("XYZ789AB", OrElse("", baseUrl))
  {
    var t := new CustomEmailTemplate(baseUrl);
    ConfirmIsVerification();
    t.SetSubject(ConfirmSubject);
    StandaloneWord();
    NoLabelInPlainWords();
    t.AddBodyText(PlainWords, "");
    text := t.RenderText();
  }

  /**
   * Without a code in the text, a button whose URL ends in a code supplies
   * both the link and the code.
   */
  method CodeFromButtonOnly(baseUrl: string) returns (text: TextPage)
    ensures text == VerificationText("XYZ789AB", RegistrationUrl)
  {
    var t := new CustomEmailTemplate(baseUrl);
    ConfirmIsVerification();
    t.SetSubject(ConfirmSubject);
    UrlTrailingSegment();
    t.AddBodyButton("Complete registration", RegistrationUrl, "");
    text := t.RenderText();
  }

  /** A subject with no keyword is forwarded as it is and the parent renders the mail. */
  method PlainMail(baseUrl: string, logo: string) returns (html: HtmlPage, text: TextPage)
    ensures html == ParentHtml && text == ParentText
  {
    var t := new CustomEmailTemplate(baseUrl);
    PlainSubjectHasNoKeyword();
    t.SetSubject(PlainSubject);
    assert t.forwarded == [Subject(PlainSubject)];
    html := t.RenderHtml(logo);
    text := t.RenderText();
  }

  /**
   * Nothing keeps the two classifications apart: a welcome subject followed
   * by a verification subject leaves both flags set, and the verification
   * template wins at render time.
   */
  method WelcomeThenVerification(baseUrl: string) returns (welcome: bool, verification: bool, text: TextPage)
    ensures welcome && verification && text.VerificationText?
  {
    var t := new CustomEmailTemplate(baseUrl);
    WelkomIsWelcome();
    t.SetSubject(WelkomSubject);
    ConfirmIsVerification();
    t.SetSubject(ConfirmSubject);
    welcome, verification := t.isWelcomeEmail, t.isVerificationEmail;
    text := t.RenderText();
  }
}
