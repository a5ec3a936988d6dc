/** The steps the three browser bots share once the login form is filled:
    waiting for the `#kc-login` button to be enabled, clicking it with a
    script-click fallback, and reading the page URL after the redirect. */
module LoginFlow {
  import opened Text

  /** Seconds between two reads of the button in the waiting loops. */
  const PollStep: nat := 2

  /** The `elapsed` loop of permis_bot.py and hybride.py. `disabledAt(t)` is
      whether the button's `disabled` attribute is truthy when `t` seconds
      have elapsed; the loop reads it every two seconds until it is enabled
      or `maxWait` is reached, then reads it once more and prompts the user
      (`input(...)`) when it is still disabled. */
  method WaitUntilEnabled(disabledAt: nat -> bool, maxWait: nat) returns (elapsed: nat, prompted: bool)
    ensures elapsed % PollStep == 0 && elapsed < maxWait + PollStep
    ensures forall t: nat :: t < elapsed && t % PollStep == 0 ==> disabledAt(t)
    ensures elapsed < maxWait ==> !disabledAt(elapsed)
    ensures prompted <==> disabledAt(elapsed)
  {
    elapsed := 0;
    while elapsed < maxWait
      invariant elapsed % PollStep == 0 && elapsed < maxWait + PollStep
      invariant forall t: nat :: t < elapsed && t % PollStep == 0 ==> disabledAt(t)
    {
      if !disabledAt(elapsed) {
        break;
      }
      elapsed := elapsed + PollStep;
    }
    prompted := disabledAt(elapsed);
  }

  /** The click of the submit button: up to `maxAttempts` normal clicks (3
      in permis_bot.py, 1 in hybride.py), then, when all of them raised, one
      script click `document.getElementById('kc-login').click()`. Only a
      script click that raises makes the submission fail. */
  method SubmitWithRetry(clickRaises: nat -> bool, maxAttempts: nat, scriptRaises: bool)
    returns (clicks: nat, scriptClick: bool, submitted: bool)
    ensures clicks <= maxAttempts && (maxAttempts > 0 ==> clicks > 0)
    ensures forall k: nat :: k + 1 < clicks ==> clickRaises(k)
    ensures 0 < clicks < maxAttempts ==> !clickRaises(clicks - 1)
    ensures scriptClick <==> maxAttempts > 0 && forall k: nat :: k < maxAttempts ==> clickRaises(k)
    ensures submitted <==> !(scriptClick && scriptRaises)
  {
    clicks, scriptClick, submitted := 0, false, true;
    var attempt: nat := 0;
    while attempt < maxAttempts
      invariant attempt <= maxAttempts && clicks == attempt
      invariant forall k: nat :: k < attempt ==> clickRaises(k)
      invariant scriptClick <==> 0 < attempt == maxAttempts
      invariant submitted && (scriptClick ==> !scriptRaises)
    {
      clicks := clicks + 1;
      if !clickRaises(attempt) {
        break;
      }
      if attempt == maxAttempts - 1 {
        scriptClick := true;
        if scriptRaises {
          submitted := false;
          return;
        }
      }
      attempt := attempt + 1;
    }
  }

  /** The post-submit check of all three bots: still on the identity
      provider (`"auth."` in the URL) or on a Keycloak login action page. */
  predicate StillOnLoginPage(url: string) {
    Contains(url, "auth.") || Contains(url, "login-actions")
  }

  /** Any URL of the identity provider's host counts as a failed login. */
  lemma AuthHostIsFailure(rest: string)
    ensures StillOnLoginPage("https://auth." + rest)
  {
    assert OccursAt("https://auth." + rest, "auth.", 8);
    OccursAtContains("https://auth." + rest, "auth.", 8);
  }
}
