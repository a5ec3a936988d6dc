/** permis_bot_copy.py: the simpler undetected-chromedriver bot
    (`PermisBot`). It waits for the CAPTCHA without any manual fallback,
    navigates by link text, and keeps monitoring through errors. */
module UndetectedBot {
  import opened Text
  import opened LoginFlow
  import opened SlotProbe

  /** `WebDriverWait(driver, 180)` reads the button every half second:
      the reads at 0 s, 0.5 s, ..., 180 s. */
  const CaptchaWaitReads: nat := 361

  /** The link texts `navigate_to_reservations` tries, in order. */
  const LinkTexts: seq<string> := ["Réservation", "Réserver", "Créneaux", "Disponibilités", "Rendez-vous", "Planning", "Examens"]

  /** What the login page does, read in the order `login` reads it. */
  datatype LoginScene = LoginScene(
    /** `#username` appears within 20 s */
    formAppears: bool,
    /** `find_element(By.ID, "kc-login")` finds the button */
    buttonPresent: bool,
    /** the button's `disabled` attribute at the k-th read of the wait */
    disabledAt: nat -> bool,
    /** `submit_button.click()` raises */
    clickRaises: bool,
    /** `driver.current_url` after the redirect */
    finalUrl: string)

  /** `find_element(By.PARTIAL_LINK_TEXT, text)` succeeds: some link's text
      contains `text`. */
  predicate LinkShown(links: seq<string>, text: string) {
    exists l :: l in links && Contains(l, text)
  }

  /** `LinkTexts[i]` is the first of the texts that some link contains. */
  predicate FirstShown(links: seq<string>, i: int) {
    0 <= i < |LinkTexts| && LinkShown(links, LinkTexts[i])
    && forall j :: 0 <= j < i ==> !LinkShown(links, LinkTexts[j])
  }

  /** Number of iterations whose error handler ran. */
  function ErrorCount(cycles: seq<Cycle>): (n: nat)
    ensures n <= |cycles|
    decreases |cycles|
  {
    if cycles == [] then 0
    else ErrorCount(cycles[..|cycles| - 1]) + (if cycles[|cycles| - 1].refreshRaises then 1 else 0)
  }

  /** One more iteration adds one to the count exactly when its refresh raised. */
  lemma ErrorCountStep(cycles: seq<Cycle>, i: nat)
    requires i < |cycles|
    ensures ErrorCount(cycles[..i + 1]) == ErrorCount(cycles[..i]) + (if cycles[i].refreshRaises then 1 else 0)
  {
    assert cycles[..i + 1][..i] == cycles[..i];
  }

  /** The error count is the number of iterations whose refresh raised. */
  lemma {:induction false} ErrorCountCounts(cycles: seq<Cycle>)
    ensures ErrorCount(cycles) == |set k | 0 <= k < |cycles| && cycles[k].refreshRaises|
    decreases |cycles|
  {
    if cycles != [] {
      var m := |cycles| - 1;
      var front := cycles[..m];
      ErrorCountCounts(front);
      var a := set k | 0 <= k < |front| && front[k].refreshRaises;
      var b := set k | 0 <= k < |cycles| && cycles[k].refreshRaises;
      assert a == set k | 0 <= k < m && cycles[k].refreshRaises;
      if cycles[m].refreshRaises {
        assert b == a + {m};
      } else {
        assert b == a;
      }
    }
  }

  class PermisBot {
    var driverOpen: bool
    var previousSlots: seq<string>

    constructor()
      ensures !driverOpen && previousSlots == []
    {
      driverOpen := false;
      previousSlots := [];
    }

    /** `setup_driver`: the driver exists once `uc.Chrome` returns; when
        it raises, the setup reports failure and nothing is kept. */
    method SetupDriver(chromeRaises: bool) returns (ok: bool)
      modifies this`driverOpen
      ensures ok <==> !chromeRaises
      ensures driverOpen == (old(driverOpen) || ok)
    {
      if chromeRaises {
        return false;
      }
      driverOpen := true;
      ok := true;
    }

    /** The `WebDriverWait(driver, 180).until(...)` of `login`: true as soon
        as a read finds the button enabled, false after the last read. */
    static method WaitForCaptcha(disabledAt: nat -> bool) returns (solved: bool, polls: nat)
      ensures solved <==> exists k: nat :: k < CaptchaWaitReads && !disabledAt(k)
      ensures solved ==> polls > 0 && !disabledAt(polls - 1)
      ensures forall k: nat :: k + 1 < polls ==> disabledAt(k)
      ensures polls <= CaptchaWaitReads
    {
      polls := 0;
      while polls < CaptchaWaitReads
        invariant polls <= CaptchaWaitReads
        invariant forall k: nat :: k < polls ==> disabledAt(k)
      {
        polls := polls + 1;
        if !disabledAt(polls - 1) {
          return true, polls;
        }
      }
      solved := false;
    }

    /** `login`: no manual fallback; a CAPTCHA still unsolved after 180 s
        fails the login, and so does a click that raises. */
    method Login(scene: LoginScene) returns (ok: bool, captchaSolved: bool)
      ensures captchaSolved <==> (scene.formAppears && scene.buttonPresent
        && exists k: nat :: k < CaptchaWaitReads && !scene.disabledAt(k))
      ensures ok <==> captchaSolved && !scene.clickRaises && !StillOnLoginPage(scene.finalUrl)
    {
      ok, captchaSolved := false, false;
      if !scene.formAppears || !scene.buttonPresent {
        return;
      }
      var polls;
      captchaSolved, polls := WaitForCaptcha(scene.disabledAt);
      if !captchaSolved || scene.clickRaises {
        return;
      }
      ok := !StillOnLoginPage(scene.finalUrl);
    }

    /** `navigate_to_reservations`: clicks the first text of `LinkTexts`
        that some link contains; false when none does or the click
        raises. */
    static method NavigateToReservations(links: seq<string>, clickRaises: bool) returns (ok: bool, clicked: Option<string>)
      ensures clicked.None? <==> forall i :: 0 <= i < |LinkTexts| ==> !LinkShown(links, LinkTexts[i])
      ensures clicked.Some? ==> exists i :: FirstShown(links, i) && LinkTexts[i] == clicked.value
      ensures ok <==> clicked.Some? && !clickRaises
    {
      var found := false;
      clicked := None;
      var i := 0;
      while i < |LinkTexts|
        invariant 0 <= i <= |LinkTexts|
        invariant forall j :: 0 <= j < i ==> !LinkShown(links, LinkTexts[j])
        invariant !found && clicked.None?
      {
        if LinkShown(links, LinkTexts[i]) {
          found := true;
          clicked := Some(LinkTexts[i]);
          assert FirstShown(links, i);
          break;
        }
        i := i + 1;
      }
      if !found {
        return false, clicked;
      }
      ok := !clickRaises;
    }

    /** `check_available_slots`, which returns early when no selector
        matches. */
    static method CheckAvailableSlots(probes: seq<SelectorProbe>) returns (slots: seq<string>)
      ensures slots == SeleniumSlots(probes)
    {
      var slotElements := FindFirstHit(probes);
      if slotElements == [] {
        return [];
      }
      slots := ReadSlotTexts(FirstTen(slotElements));
    }

    /** One iteration of `monitor_loop`; an error raised after the slots are
        handled is caught by the iteration's own handler, which leaves the
        memory alone. */
    method MonitorCycle(cycle: Cycle) returns (newSlots: seq<string>, failed: bool)
      modifies this`previousSlots
      ensures newSlots == FreshTexts(SeleniumSlots(cycle.probes), old(previousSlots))
      ensures previousSlots == NextPrevious(old(previousSlots), SeleniumSlots(cycle.probes))
      ensures failed <==> cycle.refreshRaises
    {
      var current := CheckAvailableSlots(cycle.probes);
      newSlots := [];
      if current != [] {
        newSlots := FreshTexts(current, previousSlots);
        previousSlots := current;
      }
      failed := cycle.refreshRaises;
    }

    /** `monitor_loop`: every iteration runs, whatever raised in the ones
        before, until the user interrupts after the last one; then the
        browser is closed. */
    method MonitorLoop(cycles: seq<Cycle>) returns (reports: seq<seq<string>>, errors: nat)
      modifies this`previousSlots, this`driverOpen
      ensures reports == TextRunReports(old(previousSlots), SeleniumCurrents(cycles))
      ensures previousSlots == TextMemoryAfter(old(previousSlots), SeleniumCurrents(cycles))
      ensures errors == ErrorCount(cycles)
      ensures !driverOpen
    {
      ghost var start := previousSlots;
      reports, errors := [], 0;
      var i := 0;
      while i < |cycles|
        invariant SeleniumRunReached(start, cycles, i, reports, previousSlots)
        invariant errors == ErrorCount(cycles[..i])
      {
        ErrorCountStep(cycles, i);
        ghost var memory := previousSlots;
        var newSlots, failed := MonitorCycle(cycles[i]);
        SeleniumRunAdvance(start, cycles, i, reports, memory, newSlots);
        reports := reports + [newSlots];
        if failed {
          errors := errors + 1;
        }
        i := i + 1;
      }
      assert cycles[..i] == cycles;
      Close();
    }

    /** `close` */
    method Close()
      modifies this`driverOpen
      ensures !driverOpen
    {
      if driverOpen {
        driverOpen := false;
      }
    }
  }
}
