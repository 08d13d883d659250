/**
 * The Good Cloud's `CustomEmailTemplate`: a subclass of the host's e-mail
 * template that watches the calls the host makes while composing a mail,
 * classifies the mail by its subject, harvests a verification code and
 * link from the body, and at render time substitutes its own verification
 * or welcome template. Every call it passes on to the parent template is
 * recorded in the ghost log `forwarded`; what the parent does with it is
 * not part of this model.
 */
module CustomEmail {
  import opened Options
  import opened Php
  import opened Html
  import opened Patterns

  /** Checked first, in this order. */
  const VerificationKeywords: seq<string> := ["verif", "registrat", "confirm", "code"]
  /** Checked only when no verification keyword occurs. */
  const WelcomeKeywords: seq<string> := ["welcome", "welkom", "aboard"]

  const VerificationSubject: string := "Verify your Good Cloud workspace"
  const WelcomeSubject: string := "Welcome to The Good Cloud"

  /** A call passed on to the parent `EMailTemplate`. */
  datatype ParentCall =
    | Subject(subject: string)
    | BodyText(text: string, plainText: string)
    | BodyButton(text: string, url: string, plainText: string)

  /**
   * What `renderHtml` returns: which template, and the values interpolated
   * into it (already passed through `htmlspecialchars`). `ParentHtml` is the
   * parent's own rendering, left opaque.
   */
  datatype HtmlPage =
    | VerificationHtml(logoSrc: string, code: string, href: string)
    | WelcomeHtml(logoSrc: string, href: string)
    | ParentHtml

  /** What `renderText` returns: which template, and the values interpolated into it. */
  datatype TextPage =
    | VerificationText(code: string, link: string)
    | WelcomeText(link: string)
    | ParentText

  /** Some keyword of the list occurs in `subject`, ignoring ASCII case. */
  predicate MentionsAny(subject: string, keywords: seq<string>) {
    exists i :: 0 <= i < |keywords| && ContainsCI(subject, keywords[i])
  }

  /** The labeled pattern captured something that is not falsy. */
  predicate HasLabeledCode(text: string) {
    MatchLabeled(text).Some? && !IsEmpty(MatchLabeled(text).value)
  }

  /**
   * The code after the two extraction attempts of `addBodyText`, starting
   * from a falsy `code`: a labeled capture that is not falsy wins;
   * otherwise the first standalone code word; otherwise the labeled
   * capture if there was one (it can only be "0"), else the old code.
   */
  function CodeFromText(code: string, text: string): (r: string)
    requires IsEmpty(code)
    ensures HasLabeledCode(text) ==> r == MatchLabeled(text).value
    ensures !HasLabeledCode(text) && MatchStandalone(text).Some? ==> r == MatchStandalone(text).value
    ensures !HasLabeledCode(text) && MatchStandalone(text).None? ==>
      r == (if MatchLabeled(text).Some? then MatchLabeled(text).value else code)
    ensures !HasLabeledCode(text) && MatchStandalone(text).None? ==> IsEmpty(r)
  {
    var labeled := match MatchLabeled(text) case Some(c) => c case None => code;
    if !IsEmpty(labeled) then labeled
    else match MatchStandalone(text) case Some(c) => c case None => labeled
  }

  class CustomEmailTemplate {
    var isWelcomeEmail: bool
    var isVerificationEmail: bool
    var serverUrl: string
    var verificationCode: string
    var verificationUrl: string
    /** Every call passed on to the parent template, oldest first. */
    ghost var forwarded: seq<ParentCall>

    /** `serverUrl` is the theming service's base URL, an input here. */
    constructor (baseUrl: string)
      ensures !isWelcomeEmail && !isVerificationEmail
      ensures serverUrl == baseUrl && verificationCode == "" && verificationUrl == ""
      ensures forwarded == []
    {
      isWelcomeEmail := false;
      isVerificationEmail := false;
      serverUrl := baseUrl;
      verificationCode := "";
      verificationUrl := "";
      forwarded := [];
    }

    /**
     * What every operation keeps: a flag once set stays set, the server URL
     * never changes, a code or URL that is not falsy is never overwritten,
     * and calls are only ever added to the log.
     */
    twostate predicate Grows()
      reads this
    {
      (old(isVerificationEmail) ==> isVerificationEmail) &&
      (old(isWelcomeEmail) ==> isWelcomeEmail) &&
      serverUrl == old(serverUrl) &&
      (!IsEmpty(old(verificationCode)) ==> verificationCode == old(verificationCode)) &&
      (!IsEmpty(old(verificationUrl)) ==> verificationUrl == old(verificationUrl)) &&
      old(forwarded) <= forwarded
    }

    /** Classify the mail by its subject and forward the (possibly replaced) subject. */
    method SetSubject(subject: string)
      modifies this`isVerificationEmail, this`isWelcomeEmail, this`forwarded
      ensures Grows()
      ensures MentionsAny(subject, VerificationKeywords) ==>
        isVerificationEmail && isWelcomeEmail == old(isWelcomeEmail) &&
        forwarded == old(forwarded) + [Subject(VerificationSubject)]
      ensures !MentionsAny(subject, VerificationKeywords) && MentionsAny(subject, WelcomeKeywords) ==>
        isWelcomeEmail && isVerificationEmail == old(isVerificationEmail) &&
        forwarded == old(forwarded) + [Subject(WelcomeSubject)]
      ensures !MentionsAny(subject, VerificationKeywords) && !MentionsAny(subject, WelcomeKeywords) ==>
        isVerificationEmail == old(isVerificationEmail) && isWelcomeEmail == old(isWelcomeEmail) &&
        forwarded == old(forwarded) + [Subject(subject)]
    {
      var i := 0;
      while i < |VerificationKeywords|
        invariant i <= |VerificationKeywords|
        invariant forall j :: 0 <= j < i ==> !ContainsCI(subject, VerificationKeywords[j])
        invariant unchanged(this)
      {
        if Stripos(subject, VerificationKeywords[i]).Some? {
          isVerificationEmail := true;
          forwarded := forwarded + [Subject(VerificationSubject)];
          return;
        }
        i := i + 1;
      }
      var forwardedSubject := subject;
      i := 0;
      while i < |WelcomeKeywords|
        invariant i <= |WelcomeKeywords|
        invariant forall j :: 0 <= j < i ==> !ContainsCI(subject, WelcomeKeywords[j])
        invariant unchanged(this) && forwardedSubject == subject
      {
        if Stripos(subject, WelcomeKeywords[i]).Some? {
          isWelcomeEmail := true;
          forwardedSubject := WelcomeSubject;
          break;
        }
        i := i + 1;
      }
      forwarded := forwarded + [Subject(forwardedSubject)];
    }

    /** Harvest a verification code from a paragraph, then forward the paragraph unchanged. */
    method AddBodyText(text: string, plainText: string)
      modifies this`verificationCode, this`forwarded
      ensures Grows()
      ensures forwarded == old(forwarded) + [BodyText(text, plainText)]
      ensures verificationCode ==
        if isVerificationEmail && IsEmpty(old(verificationCode)) then CodeFromText(old(verificationCode), text)
        else old(verificationCode)
    {
      if isVerificationEmail && IsEmpty(verificationCode) {
        match MatchLabeled(text) {
          case Some(c) => verificationCode := c;
          case None =>
        }
        if IsEmpty(verificationCode) {
          match MatchStandalone(text) {
            case Some(c) => verificationCode := c;
            case None =>
          }
        }
      }
      forwarded := forwarded + [BodyText(text, plainText)];
    }

    /** Capture the first button's URL and, failing a code so far, a code at its end; forward the button unchanged. */
    method AddBodyButton(text: string, url: string, plainText: string)
      modifies this`verificationUrl, this`verificationCode, this`forwarded
      ensures Grows()
      ensures forwarded == old(forwarded) + [BodyButton(text, url, plainText)]
      ensures verificationUrl ==
        if isVerificationEmail && IsEmpty(old(verificationUrl)) then url else old(verificationUrl)
      ensures verificationCode ==
        if isVerificationEmail && IsEmpty(old(verificationCode)) && MatchUrlCode(url).Some? then MatchUrlCode(url).value
        else old(verificationCode)
    {
      if isVerificationEmail {
        if IsEmpty(verificationUrl) {
          verificationUrl := url;
        }
        if IsEmpty(verificationCode) {
          match MatchUrlCode(url) {
            case Some(c) => verificationCode := c;
            case None =>
          }
        }
      }
      forwarded := forwarded + [BodyButton(text, url, plainText)];
    }

    /** The link the verification templates point at: the captured URL, or the server URL when it is falsy. */
    function LinkTarget(): string
      reads this
    {
      OrElse(verificationUrl, serverUrl)
    }

    /**
     * `renderHtml`, given the theming service's logo URL: the verification
     * template if the mail was classified as one, else the welcome template
     * if it was classified as that, else the parent's rendering. Every
     * interpolated value is escaped, so it decodes back to the field it came
     * from and cannot end the attribute or element it stands in.
     */
    function RenderHtml(logo: string): (r: HtmlPage)
      reads this
      ensures r.VerificationHtml? <==> isVerificationEmail
      ensures r.WelcomeHtml? <==> !isVerificationEmail && isWelcomeEmail
      ensures r.VerificationHtml? ==>
        Unescape(r.logoSrc) == logo && Unescape(r.code) == verificationCode && Unescape(r.href) == LinkTarget()
      ensures r.WelcomeHtml? ==> Unescape(r.logoSrc) == logo && Unescape(r.href) == serverUrl
      ensures r.VerificationHtml? ==> Inert(r.logoSrc) && Inert(r.code) && Inert(r.href)
      ensures r.WelcomeHtml? ==> Inert(r.logoSrc) && Inert(r.href)
    {
      if isVerificationEmail then
        UnescapeEscape(logo);
        UnescapeEscape(verificationCode);
        UnescapeEscape(LinkTarget());
        VerificationHtml(Escape(logo), Escape(verificationCode), Escape(LinkTarget()))
      else if isWelcomeEmail then
        UnescapeEscape(logo);
        UnescapeEscape(serverUrl);
        WelcomeHtml(Escape(logo), Escape(serverUrl))
      else
        ParentHtml
    }

    /** `renderText`: the same choice of template as `RenderHtml`, with the values unescaped. */
    function RenderText(): (r: TextPage)
      reads this
      ensures r.VerificationText? <==> isVerificationEmail
      ensures r.WelcomeText? <==> !isVerificationEmail && isWelcomeEmail
      ensures r.VerificationText? ==> r.code == verificationCode && r.link == LinkTarget()
      ensures r.WelcomeText? ==> r.link == serverUrl
    {
      if isVerificationEmail then VerificationText(verificationCode, LinkTarget())
      else if isWelcomeEmail then WelcomeText(serverUrl)
      else ParentText
    }
  }

  /** The HTML and the plain-text renderings pick the same template and show the same code and link. */
  lemma RendersAgree(t: CustomEmailTemplate, logo: string)
    ensures t.RenderHtml(logo).VerificationHtml? <==> t.RenderText().VerificationText?
    ensures t.RenderHtml(logo).WelcomeHtml? <==> t.RenderText().WelcomeText?
    ensures t.RenderHtml(logo).ParentHtml? <==> t.RenderText().ParentText?
    ensures t.RenderHtml(logo).VerificationHtml? ==>
      Unescape(t.RenderHtml(logo).code) == t.RenderText().code &&
      Unescape(t.RenderHtml(logo).href) == t.RenderText().link
  {
  }
}
