/** permis_bot.py: the Playwright bot (`PermisScraplingBot`). Its login runs
    the CAPTCHA classifier, the invisible-CAPTCHA wait, the 2Captcha gate,
    the three-click submission and the URL check; its monitor probes the
    page and diffs slot texts. */
module ScraplingBot {
  import opened Text
  import opened Captcha
  import opened LoginFlow
  import opened SlotProbe

  /** Bound of the invisible-CAPTCHA wait, in seconds. */
  const InvisibleWait: nat := 60
  /** Normal clicks tried before the script click. */
  const SubmitAttempts: nat := 3

  /** What the login page does, read in the order `login` reads it. */
  datatype LoginScene = LoginScene(
    /** `#username` appears within 20 s (false as well when loading raises) */
    formAppears: bool,
    /** what `detect_captcha` sees once the form is filled */
    page: PageView,
    /** `query_selector("#kc-login")` finds the button */
    buttonPresent: bool,
    /** the button's `disabled` attribute, by elapsed seconds of the wait */
    disabledAt: nat -> bool,
    solverReply: SolverReply,
    /** the button is still disabled after the token injection (this only
        leads to an `input()` prompt, which is not modelled) */
    disabledAfterInjection: bool,
    /** the button is disabled at the last check before clicking (this only
        leads to an `input()` prompt, which is not modelled) */
    disabledBeforeSubmit: bool,
    /** the k-th normal click raises */
    clickRaises: nat -> bool,
    scriptRaises: bool,
    /** `self.page.url` after the redirect */
    finalUrl: string)

  /** Whether all normal clicks raise. */
  predicate AllClicksRaise(scene: LoginScene) {
    forall k: nat :: k < SubmitAttempts ==> scene.clickRaises(k)
  }

  class PermisScraplingBot {
    var twocaptchaApiKey: Option<string>
    var previousSlots: seq<string>
    var browserOpen: bool
    var playwrightRunning: bool

    constructor(twocaptchaApiKey: Option<string>)
      ensures this.twocaptchaApiKey == twocaptchaApiKey
      ensures previousSlots == [] && !browserOpen && !playwrightRunning
    {
      this.twocaptchaApiKey := twocaptchaApiKey;
      previousSlots := [];
      browserOpen := false;
      playwrightRunning := false;
    }

    /** `setup_browser`: Playwright is started, then the browser launched,
        then the context and page created; the first step that raises
        makes the setup report failure, and what was already started stays
        started. */
    method SetupBrowser(startRaises: bool, launchRaises: bool, pageRaises: bool) returns (ok: bool)
      modifies this`browserOpen, this`playwrightRunning
      ensures ok <==> !startRaises && !launchRaises && !pageRaises
      ensures playwrightRunning == (old(playwrightRunning) || !startRaises)
      ensures browserOpen == (old(browserOpen) || (!startRaises && !launchRaises))
    {
      if startRaises {
        return false;
      }
      playwrightRunning := true;
      if launchRaises {
        return false;
      }
      browserOpen := true;
      ok := !pageRaises;
    }

    /** `login`: the result depends only on whether the form appears, the
        button exists, the submission goes through and where the browser
        ends up; the CAPTCHA handling only decides what is waited for and
        whether the solver is asked. */
    method Login(scene: LoginScene) returns (ok: bool, captcha: Option<CaptchaInfo>, token: Option<string>, clicks: nat, scriptClick: bool)
      ensures ok <==> (scene.formAppears && scene.buttonPresent && !(AllClicksRaise(scene) && scene.scriptRaises)
        && !StillOnLoginPage(scene.finalUrl))
      ensures scene.formAppears ==> captcha == DetectCaptcha(scene.page)
      ensures token.Some? ==> captcha.Some? && captcha.value.kind == RecaptchaV2 && Truthy(twocaptchaApiKey)
      ensures clicks <= SubmitAttempts
      ensures scriptClick <==> scene.formAppears && scene.buttonPresent && AllClicksRaise(scene)
    {
      captcha, token, clicks, scriptClick := None, None, 0, false;
      if !scene.formAppears {
        return false, captcha, token, clicks, scriptClick;
      }
      captcha := DetectCaptcha(scene.page);
      if captcha.None? {
      } else if TakesInvisibleBranch(captcha.value) {
        if !scene.buttonPresent {
          return false, captcha, token, clicks, scriptClick;
        }
        var elapsed, prompted := WaitUntilEnabled(scene.disabledAt, InvisibleWait);
      } else if Truthy(twocaptchaApiKey) {
        token := SolveCaptcha(twocaptchaApiKey, captcha.value, scene.solverReply);
        if token.Some? {
          SolverOnlyForRecaptchaV2(twocaptchaApiKey, scene.page, scene.solverReply);
          if !scene.buttonPresent {
            return false, captcha, token, clicks, scriptClick;
          }
        }
      }
      if !scene.buttonPresent {
        return false, captcha, token, clicks, scriptClick;
      }
      var submitted;
      clicks, scriptClick, submitted := SubmitWithRetry(scene.clickRaises, SubmitAttempts, scene.scriptRaises);
      if !submitted {
        return false, captcha, token, clicks, scriptClick;
      }
      ok := !StillOnLoginPage(scene.finalUrl);
    }

    /** The `for elem in elements[:10]` loop of `check_available_slots`:
        texts are appended until one read raises. */
    static method ReadTexts(firstTen: seq<TextRead>) returns (texts: seq<string>, raised: bool)
      ensures texts == TextsBeforeRaise(firstTen)
      ensures raised <==> !AllReadable(firstTen)
    {
      texts, raised := [], false;
      var j := 0;
      while j < |firstTen|
        invariant 0 <= j <= |firstTen|
        invariant texts + TextsBeforeRaise(firstTen[j..]) == TextsBeforeRaise(firstTen)
        invariant forall i :: 0 <= i < j ==> firstTen[i].Text?
      {
        TextsBeforeRaiseFrom(firstTen, j);
        match firstTen[j]
        case TextRaised =>
          assert texts + [] == texts;
          return texts, true;
        case Text(t) =>
          var read := if t != [] then [t] else [];
          assert texts + TextsBeforeRaise(firstTen[j..]) == (texts + read) + TextsBeforeRaise(firstTen[j + 1..]);
          texts := texts + read;
          j := j + 1;
      }
    }

    /** `check_available_slots` */
    static method CheckAvailableSlots(probes: seq<SelectorProbe>) returns (slots: seq<string>)
      ensures slots == PlaywrightSlots(probes)
    {
      slots := [];
      var i := 0;
      while i < |probes|
        invariant 0 <= i <= |probes|
        invariant slots + PlaywrightSlots(probes[i..]) == PlaywrightSlots(probes)
      {
        assert probes[i..][0] == probes[i] && probes[i..][1..] == probes[i + 1..];
        var probe := probes[i];
        if probe.Matched? && probe.elements != [] {
          var texts, raised := ReadTexts(FirstTen(probe.elements));
          assert slots + PlaywrightSlots(probes[i..]) == (slots + texts) + (if raised then PlaywrightSlots(probes[i + 1..]) else []);
          slots := slots + texts;
          if !raised {
            return;
          }
        }
        i := i + 1;
      }
    }

    /** One iteration of `monitor_loop`: the texts not seen before are
        reported, and the memory is replaced only when something was
        found. */
    method MonitorCycle(probes: seq<SelectorProbe>) returns (newSlots: seq<string>)
      modifies this`previousSlots
      ensures newSlots == FreshTexts(PlaywrightSlots(probes), old(previousSlots))
      ensures previousSlots == NextPrevious(old(previousSlots), PlaywrightSlots(probes))
    {
      var current := CheckAvailableSlots(probes);
      newSlots := [];
      if current != [] {
        newSlots := FreshTexts(current, previousSlots);
        previousSlots := current;
      }
    }

    /** `monitor_loop`: cycles until a reload raises (or the user
        interrupts after the last given cycle), then closes the browser. */
    method MonitorLoop(cycles: seq<Cycle>) returns (reports: seq<seq<string>>, crashed: bool)
      modifies this`previousSlots, this`browserOpen, this`playwrightRunning
      ensures reports == TextRunReports(old(previousSlots), PlaywrightCurrents(cycles[..CyclesRun(cycles)]))
      ensures previousSlots == TextMemoryAfter(old(previousSlots), PlaywrightCurrents(cycles[..CyclesRun(cycles)]))
      ensures crashed <==> CyclesRun(cycles) > 0 && cycles[CyclesRun(cycles) - 1].refreshRaises
      ensures !browserOpen && !playwrightRunning
    {
      ghost var start := previousSlots;
      reports, crashed := [], false;
      var i := 0;
      while i < |cycles| && !crashed
        invariant PlaywrightRunReached(start, cycles, i, reports, previousSlots)
        invariant forall k :: 0 <= k < i - 1 ==> !cycles[k].refreshRaises
        invariant crashed <==> i > 0 && cycles[i - 1].refreshRaises
      {
        ghost var memory := previousSlots;
        var newSlots := MonitorCycle(cycles[i].probes);
        PlaywrightRunAdvance(start, cycles, i, reports, memory, newSlots);
        reports := reports + [newSlots];
        crashed := cycles[i].refreshRaises;
        i := i + 1;
      }
      RunLengthIsFirstRaise(cycles, i);
      Close();
    }

    /** `close` */
    method Close()
      modifies this`browserOpen, this`playwrightRunning
      ensures !browserOpen && !playwrightRunning
    {
      if browserOpen {
        browserOpen := false;
      }
      if playwrightRunning {
        playwrightRunning := false;
      }
    }
  }
}
