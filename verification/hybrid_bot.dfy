/** hybride.py: the undetected-chromedriver bot that logs in without a
    proxy, then restarts the browser behind the proxy and carries the
    session cookies across (`HybridPermisBot`). */
module HybridBot {
  import opened Text
  import opened LoginFlow
  import opened SlotProbe

  /** Bound of the Turnstile wait, in seconds. */
  const TurnstileWait: nat := 90
  /** The page visited before the cookies are restored. */
  const SiteRoot: string := "https://pro.permisdeconduire.gouv.fr/"
  /** Prefix of the Chrome switch that routes traffic through the proxy. */
  const ProxySwitch: string := "--proxy-server=http://"

  /** The proxy settings read from the environment; `port` is kept as the
      text it is formatted from. */
  datatype ProxyConfig = ProxyConfig(host: string, port: string, username: Option<string>, password: Option<string>)

  /** The credentials go into the proxy URL only when both are truthy. */
  predicate HasCredentials(config: ProxyConfig) {
    Truthy(config.username) && Truthy(config.password)
  }

  /** The `--proxy-server` argument `setup_driver` adds. */
  function ProxyArgument(config: ProxyConfig): (r: string)
    ensures ProxySwitch <= r
    ensures |r| >= |ProxySwitch| + |config.host| + |config.port| + 1
    ensures r[|r| - |config.host| - |config.port| - 1..] == config.host + ":" + config.port
    ensures HasCredentials(config) <==> |r| > |ProxySwitch| + |config.host| + |config.port| + 1
    ensures HasCredentials(config) ==>
      r[|ProxySwitch|..|r| - |config.host| - |config.port| - 1]
        == config.username.value + ":" + config.password.value + "@"
  {
    var hostPort := config.host + ":" + config.port;
    if HasCredentials(config) then
      var credentials := config.username.value + ":" + config.password.value + "@";
      var r := ProxySwitch + credentials + hostPort;
      assert r[|ProxySwitch|..|r| - |hostPort|] == credentials;
      r
    else
      ProxySwitch + hostPort
  }

  /** A browser cookie. The source converts `expiry` with `int(...)`; here
      it is already an integer. */
  datatype Cookie = Cookie(name: string, value: string, expiry: Option<int>)

  /** A Chrome instance: its cookies, its current URL, the proxy argument
      it was started with, and whether `quit()` has been called on it. */
  datatype Browser = Browser(cookies: seq<Cookie>, url: string, proxyArgument: Option<string>, quit: bool)

  /** The cookies the new browser holds after the replay loop: each
      captured cookie, in order, unless adding it raised. */
  function Replayed(cookies: seq<Cookie>, addRaises: nat -> bool): (r: seq<Cookie>)
    ensures |r| <= |cookies|
    decreases |cookies|
  {
    if cookies == [] then []
    else
      var front := Replayed(cookies[..|cookies| - 1], addRaises);
      if addRaises(|cookies| - 1) then front else front + [cookies[|cookies| - 1]]
  }

  /** A cookie is restored exactly when one of its positions was added
      without raising. */
  lemma {:induction false} ReplayedMembers(cookies: seq<Cookie>, addRaises: nat -> bool, c: Cookie)
    ensures c in Replayed(cookies, addRaises) <==> exists k :: 0 <= k < |cookies| && cookies[k] == c && !addRaises(k)
    decreases |cookies|
  {
    if cookies != [] {
      var n := |cookies| - 1;
      ReplayedMembers(cookies[..n], addRaises, c);
      assert forall k :: 0 <= k < n ==> cookies[..n][k] == cookies[k];
    }
  }

  /** The replay splits over concatenation, the later cookies keeping
      their own positions: the restored cookies stay in capture order. */
  lemma {:induction false} ReplayedAppend(a: seq<Cookie>, b: seq<Cookie>, addRaises: nat -> bool)
    ensures Replayed(a + b, addRaises) == Replayed(a, addRaises) + Replayed(b, (k: nat) => addRaises(|a| + k))
    decreases |b|
  {
    if b != [] {
      var front := b[..|b| - 1];
      ReplayedAppend(a, front, addRaises);
      assert (a + b)[..|a + b| - 1] == a + front;
      assert (a + b)[|a + b| - 1] == b[|b| - 1];
    } else {
      assert a + b == a;
    }
  }

  /** When no add raises, the session is carried over whole and in order. */
  lemma {:induction false} ReplayedAll(cookies: seq<Cookie>, addRaises: nat -> bool)
    requires forall k: nat :: k < |cookies| ==> !addRaises(k)
    ensures Replayed(cookies, addRaises) == cookies
    decreases |cookies|
  {
    if cookies != [] {
      ReplayedAll(cookies[..|cookies| - 1], addRaises);
      assert cookies == cookies[..|cookies| - 1] + [cookies[|cookies| - 1]];
    }
  }

  /** What the login page does, read in the order `login` reads it. */
  datatype LoginScene = LoginScene(
    /** `#username` appears within 20 s */
    formAppears: bool,
    /** `find_element(By.ID, "kc-login")` finds the button */
    buttonPresent: bool,
    /** the button's `disabled` attribute, by elapsed seconds of the wait */
    disabledAt: nat -> bool,
    /** the normal click raises */
    clickRaises: bool,
    /** the script click raises */
    scriptRaises: bool,
    /** `driver.current_url` after the redirect */
    finalUrl: string,
    /** text of `.kc-feedback-text`, when present */
    feedbackText: Option<string>,
    /** text of `#kc-error-message`, when present */
    errorMessage: Option<string>)

  class HybridPermisBot {
    var proxyConfig: Option<ProxyConfig>
    var proxyEnabled: bool
    var driver: Option<Browser>
    var previousSlots: seq<string>

    constructor(proxyConfig: Option<ProxyConfig>)
      ensures this.proxyConfig == proxyConfig
      ensures !proxyEnabled && driver.None? && previousSlots == []
    {
      this.proxyConfig := proxyConfig;
      proxyEnabled := false;
      driver := None;
      previousSlots := [];
    }

    /** `setup_driver`: the proxy flag is raised as soon as the proxy
        argument is built, before Chrome is launched, so it stays set even
        when the launch raises; nothing ever lowers it. */
    method SetupDriver(useProxy: bool, launchRaises: bool) returns (ok: bool)
      modifies this`proxyEnabled, this`driver
      ensures proxyEnabled == (old(proxyEnabled) || (useProxy && proxyConfig.Some?))
      ensures ok <==> !launchRaises
      ensures ok ==> driver == Some(Browser([], "", if useProxy && proxyConfig.Some? then Some(ProxyArgument(proxyConfig.value)) else None, false))
      ensures !ok ==> driver == old(driver)
    {
      var argument: Option<string> := None;
      if useProxy && proxyConfig.Some? {
        argument := Some(ProxyArgument(proxyConfig.value));
        proxyEnabled := true;
      }
      if launchRaises {
        return false;
      }
      driver := Some(Browser([], "", argument, false));
      ok := true;
    }

    /** `login`: the outcome depends only on the form, the button, the
        click and the final URL; the error texts found on a failed login
        are only reported. */
    method Login(scene: LoginScene) returns (ok: bool, waited: nat, scriptClick: bool, errorsFound: bool)
      ensures ok <==> (scene.formAppears && scene.buttonPresent && !(scene.clickRaises && scene.scriptRaises)
        && !StillOnLoginPage(scene.finalUrl))
      ensures scene.formAppears && scene.buttonPresent ==>
        waited % PollStep == 0 && waited < TurnstileWait + PollStep
        && (waited < TurnstileWait ==> !scene.disabledAt(waited))
      ensures scriptClick <==> scene.formAppears && scene.buttonPresent && scene.clickRaises
      ensures errorsFound ==> !ok && (scene.feedbackText.Some? || scene.errorMessage.Some?)
    {
      ok, waited, scriptClick, errorsFound := false, 0, false, false;
      if !scene.formAppears || !scene.buttonPresent {
        return;
      }
      var prompted;
      waited, prompted := WaitUntilEnabled(scene.disabledAt, TurnstileWait);
      var clickRaises := (k: nat) => scene.clickRaises;
      assert clickRaises(0) == scene.clickRaises;
      var clicks, submitted;
      clicks, scriptClick, submitted := SubmitWithRetry(clickRaises, 1, scene.scriptRaises);
      if !submitted {
        return;
      }
      if StillOnLoginPage(scene.finalUrl) {
        if scene.feedbackText.Some? {
          errorsFound := true;
        }
        if scene.errorMessage.Some? {
          errorsFound := true;
        }
        return;
      }
      ok := true;
    }

    /** `switch_to_proxy`: capture cookies and URL, quit, restart behind the
        proxy, replay every cookie once (skipping those that raise), return
        to the captured URL and check the browser did not land on the
        identity provider. `landingUrl` is where `driver.get(current_url)`
        ends after any redirect; the captured URL itself is not needed. */
    method SwitchToProxy(restartRaises: bool, addRaises: nat -> bool, landingUrl: string) returns (ok: bool, attempts: nat)
      modifies this`proxyEnabled, this`driver
      ensures proxyConfig.None? ==> ok && attempts == 0 && driver == old(driver) && proxyEnabled == old(proxyEnabled)
      ensures proxyConfig.Some? && old(driver).None? ==> !ok && attempts == 0 && driver == old(driver)
      ensures proxyConfig.Some? && old(driver).Some? ==> proxyEnabled
      ensures proxyConfig.Some? && old(driver).Some? && restartRaises ==>
        !ok && attempts == 0 && driver == Some(old(driver).value.(quit := true))
      ensures proxyConfig.Some? && old(driver).Some? && !restartRaises ==>
        attempts == |old(driver).value.cookies|
        && driver == Some(Browser(Replayed(old(driver).value.cookies, addRaises), landingUrl,
                                  Some(ProxyArgument(proxyConfig.value)), false))
        && (ok <==> !Contains(landingUrl, "auth."))
    {
      attempts := 0;
      if proxyConfig.None? {
        return true, attempts;
      }
      if driver.None? {
        return false, attempts;
      }
      var cookies := driver.value.cookies;
      driver := Some(driver.value.(quit := true));
      var restarted := SetupDriver(true, restartRaises);
      if !restarted {
        return false, attempts;
      }
      driver := Some(driver.value.(url := SiteRoot));
      attempts := ReplayCookies(cookies, addRaises);
      driver := Some(driver.value.(url := landingUrl));
      ok := !Contains(driver.value.url, "auth.");
    }

    /** The replay loop of `switch_to_proxy`: each captured cookie is
        added once, in order; one whose `add_cookie` raises is skipped. */
    method ReplayCookies(cookies: seq<Cookie>, addRaises: nat -> bool) returns (attempts: nat)
      requires driver.Some? && driver.value.cookies == []
      modifies this`driver
      ensures attempts == |cookies|
      ensures driver == Some(old(driver).value.(cookies := Replayed(cookies, addRaises)))
    {
      ghost var start := driver.value;
      attempts := 0;
      var k := 0;
      while k < |cookies|
        invariant 0 <= k <= |cookies| && attempts == k
        invariant driver == Some(start.(cookies := Replayed(cookies[..k], addRaises)))
      {
        assert cookies[..k + 1][..k] == cookies[..k];
        attempts := attempts + 1;
        if !addRaises(k) {
          driver := Some(driver.value.(cookies := driver.value.cookies + [cookies[k]]));
        }
        k := k + 1;
      }
      assert cookies[..k] == cookies;
    }

    /** `check_available_slots`: the first selector that matches anything
        gives the elements; the texts of the first ten are kept, skipping
        empty ones and those whose read raises. */
    static method CheckAvailableSlots(probes: seq<SelectorProbe>) returns (slots: seq<string>)
      ensures slots == SeleniumSlots(probes)
    {
      var slotElements := FindFirstHit(probes);
      slots := ReadSlotTexts(FirstTen(slotElements));
    }

    /** One iteration of `monitor_loop`. */
    method MonitorCycle(probes: seq<SelectorProbe>) returns (newSlots: seq<string>)
      modifies this`previousSlots
      ensures newSlots == FreshTexts(SeleniumSlots(probes), old(previousSlots))
      ensures previousSlots == NextPrevious(old(previousSlots), SeleniumSlots(probes))
    {
      var current := CheckAvailableSlots(probes);
      newSlots := [];
      if current != [] {
        newSlots := FreshTexts(current, previousSlots);
        previousSlots := current;
      }
    }

    /** `monitor_loop`: cycles until a refresh raises (or the user
        interrupts after the last given cycle), then closes the browser. */
    method MonitorLoop(cycles: seq<Cycle>) returns (reports: seq<seq<string>>, crashed: bool)
      modifies this`previousSlots, this`driver
      ensures reports == TextRunReports(old(previousSlots), SeleniumCurrents(cycles[..CyclesRun(cycles)]))
      ensures previousSlots == TextMemoryAfter(old(previousSlots), SeleniumCurrents(cycles[..CyclesRun(cycles)]))
      ensures crashed <==> CyclesRun(cycles) > 0 && cycles[CyclesRun(cycles) - 1].refreshRaises
      ensures driver.Some? ==> driver.value.quit
    {
      ghost var start := previousSlots;
      reports, crashed := [], false;
      var i := 0;
      while i < |cycles| && !crashed
        invariant SeleniumRunReached(start, cycles, i, reports, previousSlots)
        invariant forall k :: 0 <= k < i - 1 ==> !cycles[k].refreshRaises
        invariant crashed <==> i > 0 && cycles[i - 1].refreshRaises
      {
        ghost var memory := previousSlots;
        var newSlots := MonitorCycle(cycles[i].probes);
        SeleniumRunAdvance(start, cycles, i, reports, memory, newSlots);
        reports := reports + [newSlots];
        crashed := cycles[i].refreshRaises;
        i := i + 1;
      }
      RunLengthIsFirstRaise(cycles, i);
      Close();
    }

    /** `close` */
    method Close()
      modifies this`driver
      ensures driver.Some? ==> driver.value.quit
      ensures driver.None? <==> old(driver).None?
    {
      if driver.Some? {
        driver := Some(driver.value.(quit := true));
      }
    }
  }
}
