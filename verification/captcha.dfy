/** The CAPTCHA classifier of permis_bot.py (`detect_captcha`), the
    reCAPTCHA sitekey cut out of an iframe URL, and the gate in front of the
    2Captcha solver (`solve_captcha_with_2captcha`). The page is given as
    the handful of facts the classifier reads. */
module Captcha {
  import opened Text

  datatype CaptchaKind = Turnstile | RecaptchaV2 | RecaptchaV3 | HCaptcha | Unknown

  /** The dictionary `detect_captcha` returns. `sitekey` is `None` both when
      the key is absent from the dictionary and when it maps to `None`;
      `invisible` is `None` when the key is absent. */
  datatype CaptchaInfo = CaptchaInfo(kind: CaptchaKind, sitekey: Option<string>, url: string, invisible: Option<bool>)

  /** What `detect_captcha` observes. `Unreadable` is a page on which one of
      the reads raises. */
  datatype PageView =
    | Unreadable
    | PageView(
        url: string,
        html: string,
        /** `src` of the first iframe whose `src` contains "recaptcha", if any */
        recaptchaFrameSrc: Option<string>,
        /** some iframe's `src` contains "hcaptcha" */
        hcaptchaFrame: bool,
        /** `#kc-login`: absent, or the value of its `disabled` attribute */
        loginButton: Option<Option<string>>)

  /** The Turnstile test, checked first. */
  predicate TurnstileMarked(html: string) {
    Contains(html, "challenges.cloudflare.com/turnstile") || Contains(html, "cf-turnstile")
    || Contains(html, "data-sitekey=")
  }

  /** `re.search(r'data-sitekey="([^"]+)"', html)`, group 1: a value
      exactly when the pattern matches somewhere, and then the group of
      the leftmost match. */
  function DataSitekey(html: string): (r: Option<string>)
    ensures r.Some? <==> exists i: nat :: MatchAt(html, "data-sitekey=\"", '"', true, i)
    ensures r.Some? ==>
      exists i: nat :: FirstMatchAt(html, "data-sitekey=\"", '"', true, i)
        && r.value == GroupAt(html, "data-sitekey=\"", '"', i)
  {
    CaptureIsFirstMatch(html, "data-sitekey=\"", '"', true);
    Capture(html, "data-sitekey=\"", '"', true)
  }

  /** The reCAPTCHA v3 test. The source also tries the regular expression
      `grecaptcha\.execute\(['"]([^'"]+)['"]`, but any match of it contains
      "grecaptcha.execute", so the two substring tests decide alone. */
  predicate RecaptchaV3Marked(html: string) {
    Contains(html, "grecaptcha.ready") || Contains(html, "grecaptcha.execute")
  }

  /** `r` follows the `k=` at `i` and runs up to the next `&`, the next
      `k=` or the end of `src`, whichever comes first. */
  predicate SitekeyRun(src: string, i: nat, r: string) {
    OccursAt(src, "k=" + r, i)
    && (forall j :: i + 2 <= j < i + 2 + |r| ==> src[j] != '&' && !OccursAt(src, "k=", j))
    && (i + 2 + |r| == |src| || src[i + 2 + |r|] == '&' || OccursAt(src, "k=", i + 2 + |r|))
  }

  /** `frame_src.split('k=')[1].split('&')[0]`: the text right after the
      first `k=`, up to the next `&`, the next `k=` or the end of the URL,
      whichever comes first. */
  function RecaptchaSitekey(src: string): (r: string)
    requires Contains(src, "k=")
    ensures !Contains(r, "&")
    ensures Contains(src, "k=" + r)
    ensures SitekeyRun(src, IndexOf(src, "k=").value, r)
  {
    var i := IndexOf(src, "k=").value;
    var piece := SecondPiece(src, "k=");
    var r := BeforeFirst(piece, "&");
    PieceBeforeAmpersand(src, i, piece, r);
    OccursAtContains(src, "k=" + r, i);
    r
  }

  /** The run of a `split('&')[0]` taken from a second `k=` piece found
      right after the `k=` at `i`. */
  lemma PieceBeforeAmpersand(src: string, i: nat, piece: string, r: string)
    requires OccursAt(src, "k=", i) && RunUntil(src, "k=", i + 2, piece)
    requires r == BeforeFirst(piece, ['&'])
    ensures SitekeyRun(src, i, r)
  {
    BeforeCharWithin(src, i + 2, piece, '&');
    OccursAtPrefix(src, piece, r, i + 2);
    OccursAtConcat(src, "k=", r, i);
    if |r| == |piece| {
      assert i + 2 + |r| == |src| || OccursAt(src, "k=", i + 2 + |r|);
    }
  }

  /** The `#kc-login` button exists and its `disabled` attribute is truthy. */
  predicate ButtonDisabled(loginButton: Option<Option<string>>) {
    loginButton.Some? && Truthy(loginButton.value)
  }

  /** The reCAPTCHA v2 test: the first "recaptcha" frame's `src` has `k=`. */
  predicate V2Frame(page: PageView) {
    page.PageView? && page.recaptchaFrameSrc.Some? && Contains(page.recaptchaFrameSrc.value, "k=")
  }

  /** The hCaptcha test: an "hcaptcha" frame and a `data-sitekey="…"`. */
  predicate HCaptchaFound(page: PageView) {
    page.PageView? && page.hcaptchaFrame && DataSitekey(page.html).Some?
  }

  /** `detect_captcha`: the first test that fires, in the order Turnstile,
      reCAPTCHA v2, reCAPTCHA v3, hCaptcha, disabled submit button. */
  function DetectCaptcha(page: PageView): (r: Option<CaptchaInfo>)
    ensures r.Some? ==> page.PageView? && r.value.url == page.url
    ensures page.PageView? && TurnstileMarked(page.html) ==> r.Some? && r.value.kind == Turnstile
    ensures r.Some? && r.value.kind == Turnstile ==> r.value.sitekey == DataSitekey(page.html)
    ensures r.Some? && r.value.kind == RecaptchaV2 ==>
      !TurnstileMarked(page.html) && page.recaptchaFrameSrc.Some?
      && r.value.sitekey.Some? && !Contains(r.value.sitekey.value, "&")
      && Contains(page.recaptchaFrameSrc.value, "k=" + r.value.sitekey.value)
    ensures r.Some? ==> (r.value.invisible == Some(true) <==> r.value.kind == RecaptchaV3)
    ensures r.Some? && r.value.kind == Unknown ==> ButtonDisabled(page.loginButton)
    ensures page.PageView? && ButtonDisabled(page.loginButton) ==> r.Some?
    ensures r.None? && page.PageView? ==>
      !TurnstileMarked(page.html) && !RecaptchaV3Marked(page.html) && !ButtonDisabled(page.loginButton)
      && (page.recaptchaFrameSrc.Some? ==> !Contains(page.recaptchaFrameSrc.value, "k="))
    ensures (r.Some? && r.value.kind == Turnstile) <==> (page.PageView? && TurnstileMarked(page.html))
    ensures (r.Some? && r.value.kind == RecaptchaV2) <==>
      (page.PageView? && !TurnstileMarked(page.html) && V2Frame(page))
    ensures (r.Some? && r.value.kind == RecaptchaV3) <==>
      (page.PageView? && !TurnstileMarked(page.html) && !V2Frame(page) && RecaptchaV3Marked(page.html))
    ensures (r.Some? && r.value.kind == HCaptcha) <==>
      (page.PageView? && !TurnstileMarked(page.html) && !V2Frame(page) && !RecaptchaV3Marked(page.html)
       && HCaptchaFound(page))
    ensures (r.Some? && r.value.kind == Unknown) <==>
      (page.PageView? && !TurnstileMarked(page.html) && !V2Frame(page) && !RecaptchaV3Marked(page.html)
       && !HCaptchaFound(page) && ButtonDisabled(page.loginButton))
    ensures r.Some? && r.value.kind == RecaptchaV2 ==>
      r.value.sitekey == Some(RecaptchaSitekey(page.recaptchaFrameSrc.value))
    ensures r.Some? && r.value.kind == HCaptcha ==> r.value.sitekey == DataSitekey(page.html)
  {
    match page
    case Unreadable => None
    case PageView(url, html, frameSrc, hcaptchaFrame, loginButton) =>
      if TurnstileMarked(html) then
        Some(CaptchaInfo(Turnstile, DataSitekey(html), url, Some(false)))
      else if frameSrc.Some? && Contains(frameSrc.value, "k=") then
        Some(CaptchaInfo(RecaptchaV2, Some(RecaptchaSitekey(frameSrc.value)), url, None))
      else if RecaptchaV3Marked(html) then
        Some(CaptchaInfo(RecaptchaV3, None, url, Some(true)))
      else if hcaptchaFrame && DataSitekey(html).Some? then
        Some(CaptchaInfo(HCaptcha, DataSitekey(html), url, None))
      else if ButtonDisabled(loginButton) then
        Some(CaptchaInfo(Unknown, None, url, Some(false)))
      else
        None
  }

  /** The hCaptcha branch is dead: its sitekey regular expression only
      matches text containing `data-sitekey="`, which already fires the
      Turnstile test. */
  lemma HCaptchaNeverReported(page: PageView)
    ensures DetectCaptcha(page).Some? ==> DetectCaptcha(page).value.kind != HCaptcha
  {
    if page.PageView? && DataSitekey(page.html).Some? {
      CaptureNeedsPrefix(page.html, "data-sitekey=\"", '"', true);
      assert "data-sitekey=\"" == "data-sitekey=" + "\"";
      ContainsPrefixOfPattern(page.html, "data-sitekey=", "\"");
    }
  }

  /** `captcha_info.get('invisible')`: only this kind takes the waiting branch
      of `login`; every other detected kind takes the visible branch. */
  predicate TakesInvisibleBranch(info: CaptchaInfo) {
    info.invisible == Some(true)
  }

  /** The reply of the 2Captcha service to a solve request. */
  datatype SolverReply = SolverRaised | Solved(code: string)

  /** `solve_captcha_with_2captcha`: `None` without an API key; printing
      `captcha_info['sitekey'][:20]` raises (and yields `None`) when the
      sitekey is missing; only reCAPTCHA v2 and hCaptcha are sent. */
  function SolveCaptcha(apiKey: Option<string>, info: CaptchaInfo, reply: SolverReply): (token: Option<string>)
    ensures token.Some? <==>
      Truthy(apiKey) && info.sitekey.Some? && (info.kind == RecaptchaV2 || info.kind == HCaptcha) && reply.Solved?
    ensures token.Some? ==> reply == Solved(token.value)
  {
    if !Truthy(apiKey) then None
    else if info.sitekey.None? then None
    else if info.kind == RecaptchaV2 || info.kind == HCaptcha then
      match reply
      case SolverRaised => None
      case Solved(code) => Some(code)
    else None
  }

  /** On anything `detect_captcha` returns, the solver is only ever used for
      reCAPTCHA v2, and never for an invisible CAPTCHA. */
  lemma SolverOnlyForRecaptchaV2(apiKey: Option<string>, page: PageView, reply: SolverReply)
    requires DetectCaptcha(page).Some?
    requires SolveCaptcha(apiKey, DetectCaptcha(page).value, reply).Some?
    ensures DetectCaptcha(page).value.kind == RecaptchaV2
    ensures !TakesInvisibleBranch(DetectCaptcha(page).value)
  {
    HCaptchaNeverReported(page);
  }
}
