# The Good Cloud e-mail template, modelled in Dafny

`CustomEmailTemplate` is a Nextcloud app class that subclasses the host's
`OC\Mail\EMailTemplate`. The host builds every outgoing mail by calling
`setSubject`, `addBodyText`, `addBodyButton` and then `renderHtml` /
`renderText`. The class watches those calls:

- it classifies the mail from its subject: verification keywords first, then
  welcome keywords, ignoring ASCII case;
- it harvests a verification code and a verification link from the body,
  using three fixed regular expressions;
- at render time it replaces the host's rendering with its own verification
  or welcome template.

Every `setSubject`, `addBodyText` and `addBodyButton` call is still passed on
to the parent template. A render is passed on only when neither template
applies.

This project models that class and proves what it promises.

- `options.dfy`: `Option`.
- `ascii.dfy` (`Ascii`): ASCII character classes, ASCII case folding, and the
  end and start of a greedy run of characters (`SpanEnd`, `SpanStart`).
- `php.dfy` (`Php`): three pieces of PHP semantics. `IsEmpty` is `empty()` on a
  string, which is true for `""` and for `"0"`. `OrElse` is `?:`. `Stripos` is
  `stripos`.
- `html.dfy` (`Html`): `htmlspecialchars` with the default `ENT_QUOTES`
  flags of PHP 8.1 and later (`Escape`), and its inverse on the same five entities (`Unescape`).
- `patterns.dfy` (`Patterns`): each of the three PCRE patterns has a
  declarative predicate saying where the pattern matches and what group 1
  captures (`LabelMatch`, `StandaloneMatch`, `UrlCodeMatch`). Each also has a
  scanner proved against that predicate. The scanner finds the leftmost match,
  and the match at that position is unique, so the scanner determines what
  `preg_match` leaves in `$matches[1]`.
- `pattern_cases.dfy` (`PatternCases`): concrete inputs for the three
  patterns, taken from the class's comments and from the mails it is written to handle.
- `custom_email.dfy` (`CustomEmail`): the class itself, with its five fields and
  a ghost log `forwarded` of every call passed to the parent.
  - `SetSubject` keeps the source's two `foreach` loops, with the early
    `return` and the `break`.
  - `AddBodyText` and `AddBodyButton` update the capture fields in place.
  - `Grows` is the two-state invariant every mutator keeps: flags only go from
    false to true, the server URL never changes, a non-falsy code or URL is
    never overwritten, and the log only grows.
  - `RenderHtml` and `RenderText` are functions reading `this`. They only read
    state, so calling either one twice gives the same page.
- `scenarios.dfy` (`Scenarios`): call sequences the host performs, verified
  only through the class's contracts.

How the model maps the PHP:

- A render result is a tagged value. It names the template and carries the
  values interpolated into it. For HTML those values are already escaped.
- The logo URL (`getLogo()`) is a parameter of `RenderHtml`.
- The base URL (`getBaseUrl()`) is a parameter of the constructor.
- `htmlspecialchars` is called without flags, so its behaviour is that of PHP
  8.1 and later, whose default `ENT_QUOTES` also escapes `'`. Before 8.1 the
  default `ENT_COMPAT` leaves `'` alone.
- A PHP string is a byte string. Here each byte is one `char`, and a character
  outside ASCII belongs to no ASCII class. This matches PCRE's non-UTF mode
  with its default C-locale tables.

Consequences of the code worth knowing:

- Nothing stops both flags from being set: a welcome subject followed by a
  verification subject sets both, and the verification template wins at
  render time (`Scenarios.WelcomeThenVerification`).
- In a verification mail, a button URL of `""` or `"0"` is stored and then
  replaced by the next button's URL.
- The label needs only a space after `code`, so in "Your code is 123456" the
  code is `is` (`PatternCases.LabeledTakesNextWord`). The standalone pattern,
  which would have found `123456`, is then never tried.
- Wherever the `verificatiecode` alternative matches, its last four letters
  are themselves a `code` match followed by the same separators and group
  (`Patterns.LongLabelContainsShort`), so that alternative adds no group the
  `code` alternative could not capture at a later position.
- The labeled pattern can capture `"0"`, which `empty()` treats as no code. The
  standalone pattern is then tried, and if it fails the code is `"0"`
  (`CustomEmail.CodeFromText`).

## Model

| member | source | states |
|---|---|---|
| `Php.StriposFrom` | lib/CustomEmailTemplate.php:34 | `stripos` as used in `setSubject`: returns the first position where the keyword occurs, ignoring ASCII case, with no occurrence before it. Returns `None` (PHP's `false`) exactly when the keyword occurs nowhere |
| `Php.ContainsCIMeans` | lib/CustomEmailTemplate.php:34 | `stripos(...) !== false` holds exactly when the keyword occurs at some position, ignoring case |
| `Php.MissingInitial` | lib/CustomEmailTemplate.php:34 | a keyword is not found in a subject none of whose characters folds to the keyword's first letter |
| `Html.Escape` | lib/CustomEmailTemplate.php:190-191 | `htmlspecialchars` output contains no `"`, `'`, `<` or `>`. It is never shorter than the input, and it equals the input when the input has none of the five special characters |
| `Html.UnescapeEscape` | lib/CustomEmailTemplate.php:190-191 | escaping loses nothing: decoding the escaped code or link gives back exactly the field |
| `Patterns.LabelAt` | lib/CustomEmailTemplate.php:61 | the labeled pattern tried at one position, alternatives in written order. Whatever it reports is a match at that position: `code` or `verificatiecode` in any case, then one or more colons or spaces, then the alphanumeric group |
| `Patterns.LabelMatchInitial` | lib/CustomEmailTemplate.php:61 | a labeled match begins with a letter that folds to `c` or `v` |
| `Patterns.LabelAtComplete` | lib/CustomEmailTemplate.php:61 | every labeled match at a position is exactly the one `LabelAt` reports: greedy separators, then the maximal alphanumeric group |
| `Patterns.LabelAtExact` | lib/CustomEmailTemplate.php:61 | `LabelAt` reports nothing exactly when no labeled match starts at the position, and a match with given group bounds exists there exactly when `LabelAt` reports those bounds |
| `Patterns.FindLabeled` | lib/CustomEmailTemplate.php:61 | `LeftmostLabel`: the result is a labeled match, no match starts earlier, and its group is the only one possible at its position. `None` exactly when the text has no labeled match |
| `Patterns.LongLabelContainsShort` | lib/CustomEmailTemplate.php:61 | a `verificatiecode` match is also a `code` match, eleven characters later, with the same group |
| `Patterns.MatchLabeledAt` | lib/CustomEmailTemplate.php:61-62 | a labeled match with no `c`/`v` letter before it is what `preg_match` captures |
| `Patterns.NoLabelWithoutInitials` | lib/CustomEmailTemplate.php:61-62 | a text with no letter folding to `c` or `v` has no labeled capture |
| `Patterns.MatchLabeled` | lib/CustomEmailTemplate.php:61-62 | a labeled capture is a non-empty run of ASCII letters and digits |
| `Patterns.StandaloneInWord` | lib/CustomEmailTemplate.php:65 | inside a word, the only possible match of `\b([A-Z0-9]{6,10})\b` is the whole word |
| `Patterns.FindStandalone` | lib/CustomEmailTemplate.php:65 | `LeftmostStandalone`: the result is a whole word of 6 to 10 characters, all `A-Z0-9`, with no such word before it and no other match at its position. `None` exactly when the text has no such word |
| `Patterns.MatchStandaloneAt` | lib/CustomEmailTemplate.php:65-66 | a standalone match with none before it is what `preg_match` captures |
| `Patterns.MatchStandalone` | lib/CustomEmailTemplate.php:65-66 | a standalone capture has 6 to 10 characters, all upper-case ASCII letters or digits |
| `Patterns.FindUrlCode` | lib/CustomEmailTemplate.php:82 | whatever it reports is a match of `\/([A-Za-z0-9]{6,12})$`: a `/` and then 6 to 12 alphanumerics that end the string or stop just before a final newline |
| `Patterns.FindUrlCodeComplete` | lib/CustomEmailTemplate.php:82 | the URL pattern matches in at most one way, and `FindUrlCode` reports that match |
| `Patterns.MatchUrlCodeAt` | lib/CustomEmailTemplate.php:82-83 | any URL match is what `preg_match` captures |
| `Patterns.MatchUrlCode` | lib/CustomEmailTemplate.php:82-83 | a URL capture has 6 to 12 alphanumerics, and the URL is some prefix, then `/`, then the capture, then optionally one final newline |
| `PatternCases.LabeledSimple` | lib/CustomEmailTemplate.php:61-62 | "code: ABC123" yields `ABC123` |
| `PatternCases.LabeledLongLabelAnyCase` | lib/CustomEmailTemplate.php:61-62 | the label matches in any case and a tab separates: "VerificatieCode:\tq1" yields `q1` |
| `PatternCases.LabeledTakesNextWord` | lib/CustomEmailTemplate.php:61-62 | "Your code is 123456" yields `is`, not `123456` |
| `PatternCases.NoLabelInPlainWords` | lib/CustomEmailTemplate.php:61 | "ok XYZ789AB" has no labeled match |
| `PatternCases.StandaloneWord` | lib/CustomEmailTemplate.php:65-66 | "ok XYZ789AB" yields the word `XYZ789AB` |
| `PatternCases.UrlTrailingSegment` | lib/CustomEmailTemplate.php:81-83 | `.../register/TOKEN/XYZ789AB` yields `XYZ789AB` |
| `PatternCases.UrlBeforeFinalNewline` | lib/CustomEmailTemplate.php:82 | `$` also matches before a final newline: "/r/ABCDEF\n" yields `ABCDEF` |
| `PatternCases.UrlSegmentTooShort` | lib/CustomEmailTemplate.php:82 | a five-character final segment yields nothing |
| `CustomEmail.CodeFromText` | lib/CustomEmailTemplate.php:59-67 | starting from a falsy code: a non-falsy labeled capture wins. Otherwise the first standalone code word is taken. Otherwise the code is the labeled capture if there was one (only `"0"` can be), else the old code; either way it is falsy |
| `CustomEmail.CustomEmailTemplate.constructor` | lib/CustomEmailTemplate.php:15-25 | a new template has both flags false, an empty code and URL, the given base URL as `serverUrl`, and nothing forwarded |
| `CustomEmail.CustomEmailTemplate.SetSubject` | lib/CustomEmailTemplate.php:30-52 | with a verification keyword: the verification flag is set, the welcome flag is untouched, and only `Verify your Good Cloud workspace` is forwarded. Otherwise, with a welcome keyword: the welcome flag is set and `Welcome to The Good Cloud` is forwarded. Otherwise both flags are unchanged and the subject is forwarded as given. No flag is ever cleared |
| `CustomEmail.CustomEmailTemplate.AddBodyText` | lib/CustomEmailTemplate.php:57-70 | the code changes only for a verification mail whose code is falsy, and then becomes `CodeFromText`. The text and plain text are forwarded unchanged. A non-falsy code is never overwritten |
| `CustomEmail.CustomEmailTemplate.AddBodyButton` | lib/CustomEmailTemplate.php:75-87 | for a verification mail, a falsy URL becomes the button URL. A falsy code becomes the URL's trailing code when there is one. Otherwise nothing changes. The button is forwarded unchanged |
| `CustomEmail.CustomEmailTemplate.RenderHtml` | lib/CustomEmailTemplate.php:352-360 | verification template exactly when the mail is a verification mail. Welcome template exactly when it is a welcome mail but not a verification mail. Otherwise the parent's rendering. The interpolated code, link (captured URL, or server URL when falsy) and logo decode back to their fields, and no interpolated value (logo, code, link, or the welcome link) contains a quote or angle bracket |
| `CustomEmail.CustomEmailTemplate.RenderText` | lib/CustomEmailTemplate.php:365-373 | the same choice of template. The verification text carries the captured code and the captured URL, or the server URL when the URL is falsy. The welcome text carries the server URL |
| `CustomEmail.RendersAgree` | lib/CustomEmailTemplate.php:352-373 | HTML and plain text always pick the same template and show the same code and link once decoded |
| `Scenarios.VerificationInitials` | lib/CustomEmailTemplate.php:32 | the verification keywords begin with `v`, `r` or `c` |
| `Scenarios.WelcomeInitials` | lib/CustomEmailTemplate.php:43 | the welcome keywords begin with `w` or `a` |
| `Scenarios.PlainSubjectHasNoKeyword` | lib/CustomEmailTemplate.php:32-45 | "Hello" mentions no keyword of either list |
| `Scenarios.WelkomIsWelcome` | lib/CustomEmailTemplate.php:32-45 | "Welkom!" mentions a welcome keyword and no verification keyword |
| `Scenarios.ConfirmIsVerification` | lib/CustomEmailTemplate.php:32-34 | "Please CONFIRM your account" mentions a verification keyword, whatever its case |
| `Scenarios.RegistrationMail` | lib/CustomEmailTemplate.php:30-87 | a registration mail renders the first labeled code whatever paragraph follows it, and the button URL (the server URL when that URL is falsy), in both HTML and text |
| `Scenarios.CodeWithoutButton` | lib/CustomEmailTemplate.php:65-66 | with no labeled code and no button, the standalone word is the code and the link falls back to the server URL |
| `Scenarios.CodeFromButtonOnly` | lib/CustomEmailTemplate.php:76-84 | with no code in the text, the button supplies both the link and the trailing code |
| `Scenarios.PlainMail` | lib/CustomEmailTemplate.php:51 | a subject without keywords is forwarded unchanged and the parent renders the mail |
| `Scenarios.WelcomeThenVerification` | lib/CustomEmailTemplate.php:35-46 | a welcome subject followed by a verification subject leaves both flags set, and the verification template is rendered |

## Left out

- The parent `OC\Mail\EMailTemplate` is not part of this model. Calls passed to it are recorded in a ghost log. Its renderings appear only as the opaque values `ParentHtml` and `ParentText`.
- The constructor's services (theming defaults, URL generator, l10n, config) are not modelled. `getBaseUrl()` becomes the constructor's argument and `getLogo()` becomes `RenderHtml`'s argument.
- The literal HTML, CSS and marketing copy of the four template builders (lines 96-182, 193-282, 292-313, 322-346) are static text. A rendering is modelled as the template's tag plus the values interpolated into it.
- `htmlspecialchars`' replacement of invalid UTF-8 (`ENT_SUBSTITUTE`) is not modelled, because strings are sequences of single-byte characters here.
- PCRE character tables for a non-C locale are not modelled, nor is UTF mode. `\s`, `\w` and case folding are the ASCII ones.
- The optional `$plainText` arguments are ordinary parameters. Callers that omit them pass `""`.
- `addBodyText`'s `$plainText` is untyped in PHP, so a host may pass a non-string such as `false`. `BodyText` records it as a string and cannot represent that.
- `preg_match` returns `false` on an internal error (backtracking or JIT stack limit), and the code or URL capture then takes nothing. `MatchLabeled`, `MatchStandalone` and `MatchUrlCode` always report the match the pattern defines.
- Before PHP 8.2, `stripos` folds case with the C library's locale-dependent `tolower` (a Turkish locale, for example, does not fold `I` to `i`). `StriposFrom` folds ASCII letters only, as PHP 8.2 and later do.
