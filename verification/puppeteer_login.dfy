/** puppeteerLogin.ts: the Puppeteer login that solves the Turnstile through
    2Captcha (a submit request, then a bounded poll, retried), injects the
    token into the form, submits it and keeps the session cookies. */
module PuppeteerLogin {
  import opened Text
  import opened LoginFlow

  // ---------------------------------------------------------------------
  // The 2Captcha retry and poll machine (`solveTurnstile2Captcha`)
  // ---------------------------------------------------------------------

  /** The JSON body 2Captcha answers with. */
  datatype Reply = Reply(status: int, request: string)

  /** One HTTP exchange: the request raised (network error, timeout), or a
      reply arrived. */
  datatype Exchange = Raised | Answered(reply: Reply)

  /** Polls of `res.php` per submission. */
  const MaxPolls: nat := 40
  /** The `request` 2Captcha sends while the solve job is still running. */
  const NotReady: string := "CAPCHA_NOT_READY"

  /** The poll `i` of attempt `a` returned `token` with status 1. */
  predicate SolvedAt(pollAt: (nat, nat) -> Exchange, a: nat, i: nat, token: string) {
    pollAt(a, i).Answered? && pollAt(a, i).reply.status == 1 && pollAt(a, i).reply.request == token
  }

  /** The polls of attempt `a` from the `i`-th on: the first status-1 reply
      gives the token; a raise or a reply other than "not ready" ends this
      attempt's polling; after the 40th poll the attempt has timed out. */
  function PollOutcome(pollAt: (nat, nat) -> Exchange, a: nat, i: nat): (r: Option<string>)
    ensures r.Some? ==> exists j :: i <= j < MaxPolls && SolvedAt(pollAt, a, j, r.value)
    ensures (forall j :: i <= j < MaxPolls ==> pollAt(a, j) == Answered(Reply(0, NotReady))) ==> r.None?
    decreases MaxPolls - i
  {
    if i >= MaxPolls then None
    else match pollAt(a, i)
      case Raised => None
      case Answered(reply) =>
        if reply.status == 1 then
          assert SolvedAt(pollAt, a, i, reply.request);
          Some(reply.request)
        else if reply.request != NotReady then None
        else PollOutcome(pollAt, a, i + 1)
  }

  /** Poll `m` of attempt `a` answered "not ready", so polling goes on. */
  predicate NotReadyAt(pollAt: (nat, nat) -> Exchange, a: nat, m: nat) {
    pollAt(a, m).Answered? && pollAt(a, m).reply.status != 1 && pollAt(a, m).reply.request == NotReady
  }

  /** Poll `j` of attempt `a` is within the 40 and answers status 1, and
      every poll from `i` up to it answered "not ready". */
  predicate SolvedAfterWaiting(pollAt: (nat, nat) -> Exchange, a: nat, i: nat, j: nat) {
    i <= j < MaxPolls && (forall m :: i <= m < j ==> NotReadyAt(pollAt, a, m))
    && pollAt(a, j).Answered? && pollAt(a, j).reply.status == 1
  }

  /** Polling yields a token exactly when a status-1 reply comes within the
      40 polls after nothing but "not ready" replies, and the token is that
      reply's `request`. */
  lemma {:induction false} PollSolvedIff(pollAt: (nat, nat) -> Exchange, a: nat, i: nat)
    ensures PollOutcome(pollAt, a, i).Some? <==> exists j :: SolvedAfterWaiting(pollAt, a, i, j)
    ensures PollOutcome(pollAt, a, i).Some? ==>
      exists j :: SolvedAfterWaiting(pollAt, a, i, j) && PollOutcome(pollAt, a, i).value == pollAt(a, j).reply.request
    decreases MaxPolls - i
  {
    if i < MaxPolls && NotReadyAt(pollAt, a, i) {
      PollSolvedIff(pollAt, a, i + 1);
      if PollOutcome(pollAt, a, i + 1).Some? {
        var j :| SolvedAfterWaiting(pollAt, a, i + 1, j) && PollOutcome(pollAt, a, i + 1).value == pollAt(a, j).reply.request;
        assert SolvedAfterWaiting(pollAt, a, i, j);
      }
      forall j | SolvedAfterWaiting(pollAt, a, i, j)
        ensures SolvedAfterWaiting(pollAt, a, i + 1, j)
      {
      }
    } else if i < MaxPolls && pollAt(a, i).Answered? && pollAt(a, i).reply.status == 1 {
      assert SolvedAfterWaiting(pollAt, a, i, i);
    } else {
      forall j | i <= j
        ensures !SolvedAfterWaiting(pollAt, a, i, j)
      {
        if i < j && j < MaxPolls {
          assert !NotReadyAt(pollAt, a, i);
        }
      }
    }
  }

  /** One attempt: a submission that raises or is refused (status other
      than 1) fails the attempt without polling. */
  function AttemptOutcome(submitAt: nat -> Exchange, pollAt: (nat, nat) -> Exchange, a: nat): (r: Option<string>)
    ensures r.Some? ==> submitAt(a).Answered? && submitAt(a).reply.status == 1
    ensures r.Some? ==> exists j :: 0 <= j < MaxPolls && SolvedAt(pollAt, a, j, r.value)
    ensures r.Some? <==> (submitAt(a).Answered? && submitAt(a).reply.status == 1
                          && exists j :: SolvedAfterWaiting(pollAt, a, 0, j))
    ensures r.Some? ==> exists j :: SolvedAfterWaiting(pollAt, a, 0, j) && r.value == pollAt(a, j).reply.request
  {
    PollSolvedIff(pollAt, a, 0);
    match submitAt(a)
    case Raised => None
    case Answered(reply) => if reply.status != 1 then None else PollOutcome(pollAt, a, 0)
  }

  /** Attempts `attempt` to `maxRetries`, in order: the first attempt that
      yields a token decides. */
  function Solve(submitAt: nat -> Exchange, pollAt: (nat, nat) -> Exchange, maxRetries: nat, attempt: nat): (r: Option<string>)
    ensures r.Some? ==> exists a, j :: attempt <= a <= maxRetries && 0 <= j < MaxPolls && SolvedAt(pollAt, a, j, r.value)
    decreases maxRetries + 1 - attempt
  {
    if attempt > maxRetries then None
    else match AttemptOutcome(submitAt, pollAt, attempt)
      case Some(token) => Some(token)
      case None => Solve(submitAt, pollAt, maxRetries, attempt + 1)
  }

  /** Attempt `a` is the first from `attempt` on that yields a token. */
  predicate FirstSuccess(submitAt: nat -> Exchange, pollAt: (nat, nat) -> Exchange, attempt: nat, a: nat) {
    attempt <= a && AttemptOutcome(submitAt, pollAt, a).Some?
    && forall b :: attempt <= b < a ==> AttemptOutcome(submitAt, pollAt, b).None?
  }

  /** The attempt loop yields no token exactly when every attempt fails:
      a failed attempt never stops the later ones. */
  lemma {:induction false} SolveNoneIffAllFail(submitAt: nat -> Exchange, pollAt: (nat, nat) -> Exchange, maxRetries: nat, attempt: nat)
    ensures Solve(submitAt, pollAt, maxRetries, attempt).None? <==>
      forall a :: attempt <= a <= maxRetries ==> AttemptOutcome(submitAt, pollAt, a).None?
    decreases maxRetries + 1 - attempt
  {
    if attempt <= maxRetries && AttemptOutcome(submitAt, pollAt, attempt).None? {
      SolveNoneIffAllFail(submitAt, pollAt, maxRetries, attempt + 1);
    }
  }

  /** A token is that of the first attempt that yields one. */
  lemma {:induction false} SolveIsFirstSuccess(submitAt: nat -> Exchange, pollAt: (nat, nat) -> Exchange, maxRetries: nat, attempt: nat)
    requires Solve(submitAt, pollAt, maxRetries, attempt).Some?
    ensures exists a: nat :: (a <= maxRetries && FirstSuccess(submitAt, pollAt, attempt, a)
      && Solve(submitAt, pollAt, maxRetries, attempt) == AttemptOutcome(submitAt, pollAt, a))
    decreases maxRetries + 1 - attempt
  {
    var first := AttemptOutcome(submitAt, pollAt, attempt);
    if first.None? {
      SolveIsFirstSuccess(submitAt, pollAt, maxRetries, attempt + 1);
      var a: nat :| a <= maxRetries && FirstSuccess(submitAt, pollAt, attempt + 1, a)
        && Solve(submitAt, pollAt, maxRetries, attempt + 1) == AttemptOutcome(submitAt, pollAt, a);
      assert FirstSuccess(submitAt, pollAt, attempt, a);
    } else {
      assert FirstSuccess(submitAt, pollAt, attempt, attempt);
    }
  }

  /** A refused submission on the last attempt, after failed attempts
      before it, gives no token. */
  lemma LastRefusalGivesNull(submitAt: nat -> Exchange, pollAt: (nat, nat) -> Exchange, maxRetries: nat)
    requires maxRetries >= 1
    requires forall a :: 1 <= a < maxRetries ==> AttemptOutcome(submitAt, pollAt, a).None?
    requires submitAt(maxRetries).Answered? && submitAt(maxRetries).reply.status != 1
    ensures Solve(submitAt, pollAt, maxRetries, 1).None?
  {
    SolveNoneIffAllFail(submitAt, pollAt, maxRetries, 1);
  }

  /** The inner `for` loop: polls `res.php` until a token, an unexpected
      reply, a raise, or 40 polls. */
  method PollForToken(pollAt: (nat, nat) -> Exchange, attempt: nat) returns (token: Option<string>, polls: nat)
    ensures token == PollOutcome(pollAt, attempt, 0)
    ensures polls <= MaxPolls
    ensures token.Some? ==> polls > 0 && SolvedAt(pollAt, attempt, polls - 1, token.value)
  {
    var i := 0;
    while i < MaxPolls
      invariant 0 <= i <= MaxPolls
      invariant PollOutcome(pollAt, attempt, i) == PollOutcome(pollAt, attempt, 0)
    {
      var result := pollAt(attempt, i);
      if result.Raised? {
        return None, i + 1;
      }
      if result.reply.status == 1 {
        return Some(result.reply.request), i + 1;
      }
      if result.reply.request != NotReady {
        return None, i + 1;
      }
      i := i + 1;
    }
    token, polls := None, i;
  }

  /** `solveTurnstile2Captcha`: at most `maxRetries` submissions, at most
      40 polls after each; `pollCounts[k]` is the number of polls made
      after the (k+1)-th submission. */
  method SolveTurnstile(submitAt: nat -> Exchange, pollAt: (nat, nat) -> Exchange, maxRetries: nat) returns (token: Option<string>, pollCounts: seq<nat>)
    ensures token == Solve(submitAt, pollAt, maxRetries, 1)
    ensures |pollCounts| <= maxRetries
    ensures forall k :: 0 <= k < |pollCounts| ==> pollCounts[k] <= MaxPolls
    ensures token.Some? ==> |pollCounts| > 0 && pollCounts[|pollCounts| - 1] > 0
    ensures token.Some? ==> SolvedAt(pollAt, |pollCounts|, pollCounts[|pollCounts| - 1] - 1, token.value)
  {
    pollCounts := [];
    var attempt := 1;
    while attempt <= maxRetries
      invariant 1 <= attempt <= maxRetries + 1
      invariant |pollCounts| == attempt - 1
      invariant forall k :: 0 <= k < |pollCounts| ==> pollCounts[k] <= MaxPolls
      invariant Solve(submitAt, pollAt, maxRetries, attempt) == Solve(submitAt, pollAt, maxRetries, 1)
    {
      var submit := submitAt(attempt);
      if submit.Raised? {
        pollCounts := pollCounts + [0];
        attempt := attempt + 1;
        continue;
      }
      if submit.reply.status != 1 {
        pollCounts := pollCounts + [0];
        if attempt < maxRetries {
          attempt := attempt + 1;
          continue;
        }
        return None, pollCounts;
      }
      var polled, polls := PollForToken(pollAt, attempt);
      pollCounts := pollCounts + [polls];
      if polled.Some? {
        return polled, pollCounts;
      }
      attempt := attempt + 1;
    }
    token := None;
  }

  // ---------------------------------------------------------------------
  // Sitekey choice, error text and URL check
  // ---------------------------------------------------------------------

  /** The Cloudflare challenge frame is recognised by its `src`. */
  const ChallengeHost: string := "challenges.cloudflare.com"

  /** `document.querySelector("iframe[src*='challenges.cloudflare.com']")`:
      the `src` of the first frame that names the challenge host. */
  function ChallengeFrame(frameSrcs: seq<string>): (r: Option<string>)
    ensures r.Some? ==> r.value in frameSrcs && Contains(r.value, ChallengeHost)
    ensures r.None? <==> forall k :: 0 <= k < |frameSrcs| ==> !Contains(frameSrcs[k], ChallengeHost)
    ensures r.Some? ==>
      exists k :: 0 <= k < |frameSrcs| && frameSrcs[k] == r.value
        && forall j :: 0 <= j < k ==> !Contains(frameSrcs[j], ChallengeHost)
  {
    if frameSrcs == [] then None
    else if Contains(frameSrcs[0], ChallengeHost) then Some(frameSrcs[0])
    else
      var r := ChallengeFrame(frameSrcs[1..]);
      if r.Some? then
        var k :| 0 <= k < |frameSrcs[1..]| && frameSrcs[1..][k] == r.value
          && forall j :: 0 <= j < k ==> !Contains(frameSrcs[1..][j], ChallengeHost);
        assert frameSrcs[k + 1] == r.value;
        r
      else r
  }

  /** `src.match(/sitekey=([^&]+)/)` on the challenge frame's `src`: a
      sitekey exactly when the pattern matches somewhere in it, and then
      the group of the leftmost match. */
  function FrameSitekey(frameSrcs: seq<string>): (r: Option<string>)
    ensures r.Some? ==> ChallengeFrame(frameSrcs).Some?
    ensures r.Some? ==> Contains(ChallengeFrame(frameSrcs).value, "sitekey=" + r.value)
    ensures r.Some? ==> r.value != [] && forall i :: 0 <= i < |r.value| ==> r.value[i] != '&'
    ensures r.Some? <==> (ChallengeFrame(frameSrcs).Some?
                          && exists i: nat :: MatchAt(ChallengeFrame(frameSrcs).value, "sitekey=", '&', false, i))
    ensures r.Some? ==>
      exists i: nat :: FirstMatchAt(ChallengeFrame(frameSrcs).value, "sitekey=", '&', false, i)
        && r.value == GroupAt(ChallengeFrame(frameSrcs).value, "sitekey=", '&', i)
  {
    match ChallengeFrame(frameSrcs)
    case None => None
    case Some(src) =>
      CaptureIsFirstMatch(src, "sitekey=", '&', false);
      Capture(src, "sitekey=", '&', false)
  }

  /** The sitekey the page yields: the one in the challenge frame's `src`,
      otherwise the `data-sitekey` attribute of the first element carrying
      one (which may be empty), otherwise nothing. */
  function ChooseSitekey(frameSrcs: seq<string>, dataSitekeys: seq<string>): (r: Option<string>)
    ensures FrameSitekey(frameSrcs).Some? ==> r == FrameSitekey(frameSrcs)
    ensures FrameSitekey(frameSrcs).None? && dataSitekeys != [] ==> r == Some(dataSitekeys[0])
    ensures r.None? <==> FrameSitekey(frameSrcs).None? && dataSitekeys == []
  {
    if FrameSitekey(frameSrcs).Some? then FrameSitekey(frameSrcs)
    else if dataSitekeys != [] then Some(dataSitekeys[0])
    else None
  }

  /** Only the attribute fallback can yield an empty sitekey, which stops
      the login. */
  lemma EmptySitekeyComesFromAttribute(frameSrcs: seq<string>, dataSitekeys: seq<string>)
    requires ChooseSitekey(frameSrcs, dataSitekeys) == Some([])
    ensures FrameSitekey(frameSrcs).None? && dataSitekeys != [] && dataSitekeys[0] == []
  {
  }

  /** The selectors searched for a Keycloak error, in order. */
  const ErrorSelectors: seq<string> := [".alert-error", "#input-error", ".kc-feedback-text", "[class*=\"error\"]", "[class*=\"invalid\"]"]

  /** The `k`-th selector finds an element whose text is not blank. */
  predicate ErrorAt(selectors: seq<string>, textOf: string -> Option<string>, k: int) {
    0 <= k < |selectors| && textOf(selectors[k]).Some? && Trim(textOf(selectors[k]).value) != []
  }

  /** The `k`-th selector is the first one that finds an error. */
  predicate FirstErrorAt(selectors: seq<string>, textOf: string -> Option<string>, k: int) {
    ErrorAt(selectors, textOf, k) && forall j :: 0 <= j < k ==> !ErrorAt(selectors, textOf, j)
  }

  /** Dropping the first selector shifts the others down by one. */
  lemma ErrorAtShift(selectors: seq<string>, textOf: string -> Option<string>)
    requires selectors != []
    ensures forall k :: 1 <= k < |selectors| ==>
      (ErrorAt(selectors, textOf, k) <==> ErrorAt(selectors[1..], textOf, k - 1))
  {
    assert forall k :: 1 <= k < |selectors| ==> selectors[k] == selectors[1..][k - 1];
  }

  /** The error search: the trimmed text of the first selector whose first
      element has text that is not blank. `textOf(sel)` is the
      `textContent` of the first element `sel` matches, if any. */
  function ErrorText(selectors: seq<string>, textOf: string -> Option<string>): (r: Option<string>)
    ensures r.Some? ==> r.value != [] && exists k :: FirstErrorAt(selectors, textOf, k) && r.value == Trim(textOf(selectors[k]).value)
    ensures r.None? <==> forall k :: 0 <= k < |selectors| ==> !ErrorAt(selectors, textOf, k)
  {
    if selectors == [] then None
    else
      var t := textOf(selectors[0]);
      if t.Some? && Trim(t.value) != [] then
        assert FirstErrorAt(selectors, textOf, 0);
        Some(Trim(t.value))
      else
        var rest := ErrorText(selectors[1..], textOf);
        ErrorAtShift(selectors, textOf);
        if rest.Some? then
          var k :| FirstErrorAt(selectors[1..], textOf, k) && rest.value == Trim(textOf(selectors[1..][k]).value);
          assert FirstErrorAt(selectors, textOf, k + 1);
          rest
        else
          rest
  }

  /** An error text made only of whitespace is not an error. */
  lemma BlankErrorsIgnored(textOf: string -> Option<string>)
    requires forall k :: 0 <= k < |ErrorSelectors| ==> textOf(ErrorSelectors[k]).Some? ==>
      forall i :: 0 <= i < |textOf(ErrorSelectors[k]).value| ==> IsSpace(textOf(ErrorSelectors[k]).value[i])
    ensures ErrorText(ErrorSelectors, textOf).None?
  {
    forall k | 0 <= k < |ErrorSelectors| && textOf(ErrorSelectors[k]).Some?
      ensures Trim(textOf(ErrorSelectors[k]).value) == []
    {
      TrimEmptyIffBlank(textOf(ErrorSelectors[k]).value);
    }
  }

  const LoginActionsPath: string := "/realms/formation/login-actions"

  /** The URL check after submission: still on the auth host, on a
      Cloudflare interstitial, or on Keycloak's login actions. */
  predicate UrlShowsFailure(url: string) {
    Contains(url, "auth.") || Contains(url, "cdn-cgi") || Contains(url, LoginActionsPath)
  }

  /** Every URL the Python bots reject as still on the login page fails
      here too, except a bare `login-actions` outside the realm path; and
      a Cloudflare interstitial fails only here. */
  lemma UrlFailureComparedWithBots(url: string)
    ensures UrlShowsFailure(url) ==> StillOnLoginPage(url) || Contains(url, "cdn-cgi")
    ensures Contains(url, "auth.") ==> UrlShowsFailure(url) && StillOnLoginPage(url)
  {
    if Contains(url, LoginActionsPath) {
      assert LoginActionsPath == "/realms/formation/" + "login-actions";
      ContainsSuffixOfPattern(url, "/realms/formation/", "login-actions");
    }
  }

  // ---------------------------------------------------------------------
  // The login form and the token injection (`ensureHidden`)
  // ---------------------------------------------------------------------

  /** An `<input>` of the form. */
  datatype Input = Input(name: string, inputType: string, value: string)

  /** `form.querySelector('input[name="..."]')`: the first input of that
      name. */
  function FirstNamed(inputs: seq<Input>, name: string): (r: Option<nat>)
    ensures r.Some? ==> r.value < |inputs| && inputs[r.value].name == name
    ensures r.Some? ==> forall k :: 0 <= k < r.value ==> inputs[k].name != name
    ensures r.None? <==> forall k :: 0 <= k < |inputs| ==> inputs[k].name != name
  {
    if inputs == [] then None
    else if inputs[0].name == name then Some(0)
    else
      var r := FirstNamed(inputs[1..], name);
      assert forall k :: 1 <= k < |inputs| ==> inputs[k] == inputs[1..][k - 1];
      if r.Some? then Some(r.value + 1) else None
  }

  /** The value a lookup by name sees. */
  function ValueNamed(inputs: seq<Input>, name: string): Option<string> {
    match FirstNamed(inputs, name)
    case None => None
    case Some(k) => Some(inputs[k].value)
  }

  /** `ensureHidden(name, value)` on the inputs: the first input of that
      name gets the value; when there is none, a hidden input is appended. */
  function Upsert(inputs: seq<Input>, name: string, value: string): (r: seq<Input>)
    ensures ValueNamed(r, name) == Some(value)
    ensures |r| == |inputs| + (if FirstNamed(inputs, name).None? then 1 else 0)
    ensures forall k :: 0 <= k < |inputs| && Some(k) != FirstNamed(inputs, name) ==> r[k] == inputs[k]
    ensures forall k :: 0 <= k < |inputs| ==> r[k].name == inputs[k].name && r[k].inputType == inputs[k].inputType
    ensures FirstNamed(inputs, name).None? ==> r[|inputs|] == Input(name, "hidden", value)
  {
    match FirstNamed(inputs, name)
    case Some(k) =>
      var r := inputs[k := inputs[k].(value := value)];
      assert FirstNamed(r, name) == Some(k) by {
        assert forall j :: 0 <= j < |r| ==> r[j].name == inputs[j].name;
      }
      r
    case None =>
      var r := inputs + [Input(name, "hidden", value)];
      assert FirstNamed(r, name) == Some(|inputs|) by {
        assert forall j :: 0 <= j < |inputs| ==> r[j] == inputs[j];
        assert r[|inputs|].name == name;
      }
      r
  }

  /** A second `ensureHidden` with the same name adds no input, and with
      the same value changes nothing. */
  lemma UpsertTwice(inputs: seq<Input>, name: string, value: string, value2: string)
    ensures |Upsert(Upsert(inputs, name, value), name, value2)| == |Upsert(inputs, name, value)|
    ensures Upsert(Upsert(inputs, name, value), name, value) == Upsert(inputs, name, value)
  {
    var once := Upsert(inputs, name, value);
    var k := FirstNamed(once, name).value;
    assert once[k].value == value;
    assert once[k := once[k].(value := value)] == once;
  }

  /** Two input lists whose names agree on the shorter one's length give
      the same first match within it. */
  lemma FirstNamedAgrees(a: seq<Input>, b: seq<Input>, name: string)
    requires |a| <= |b|
    requires forall j :: 0 <= j < |a| ==> b[j].name == a[j].name
    ensures FirstNamed(a, name).Some? ==> FirstNamed(b, name) == FirstNamed(a, name)
    ensures FirstNamed(a, name).None? && FirstNamed(b, name).Some? ==> FirstNamed(b, name).value >= |a|
  {
    var fa := FirstNamed(a, name);
    var fb := FirstNamed(b, name);
    if fa.Some? {
      var k := fa.value;
      assert b[k].name == name;
      var m := fb.value;
      assert m <= k;
      assert k <= m by {
        assert forall j :: 0 <= j < k ==> b[j].name != name;
      }
    } else if fb.Some? {
      var m := fb.value;
      assert forall j :: 0 <= j < |a| ==> b[j].name != name;
      assert b[m].name == name;
    }
  }

  /** Setting one name leaves the value seen under any other name. */
  lemma UpsertOtherName(inputs: seq<Input>, name: string, value: string, other: string)
    requires other != name
    ensures ValueNamed(Upsert(inputs, name, value), other) == ValueNamed(inputs, other)
  {
    var r := Upsert(inputs, name, value);
    FirstNamedAgrees(inputs, r, other);
    match FirstNamed(inputs, other)
    case Some(k) =>
      assert inputs[k].name == other;
    case None =>
      if FirstNamed(inputs, name).None? {
        assert r[|inputs|].name == name;
      }
  }

  /** The page's login form, whose inputs the injection changes. */
  class LoginForm {
    var inputs: seq<Input>

    constructor(inputs: seq<Input>)
      ensures this.inputs == inputs
    {
      this.inputs := inputs;
    }

    /** `ensureHidden` */
    method EnsureHidden(name: string, value: string)
      modifies this
      ensures inputs == Upsert(old(inputs), name, value)
    {
      var k := 0;
      while k < |inputs|
        invariant 0 <= k <= |inputs|
        invariant forall j :: 0 <= j < k ==> inputs[j].name != name
      {
        if inputs[k].name == name {
          inputs := inputs[k := inputs[k].(value := value)];
          return;
        }
        k := k + 1;
      }
      inputs := inputs + [Input(name, "hidden", value)];
    }

    /** The injection: both response fields are set to the token. */
    method InjectToken(token: string)
      modifies this
      ensures inputs == Upsert(Upsert(old(inputs), "cf-turnstile-response", token), "g-recaptcha-response", token)
      ensures ValueNamed(inputs, "cf-turnstile-response") == Some(token)
      ensures ValueNamed(inputs, "g-recaptcha-response") == Some(token)
    {
      EnsureHidden("cf-turnstile-response", token);
      UpsertOtherName(inputs, "g-recaptcha-response", token, "cf-turnstile-response");
      EnsureHidden("g-recaptcha-response", token);
    }
  }

  // ---------------------------------------------------------------------
  // The cookie record
  // ---------------------------------------------------------------------

  /** A browser cookie, reduced to what the record uses. */
  datatype Cookie = Cookie(name: string, value: string)

  /** The cookies worth keeping. */
  const ImportantNames: set<string> := {"mod_auth_openidc_session", "__cf_bm", "cf_clearance", "etuix", "eulerian", "TCPID"}

  /** `cookies_session.json`: a timestamp and one value per kept name. */
  datatype SessionRecord = SessionRecord(timestamp: int, values: map<string, string>)

  /** `cookies.filter(...)`: the important cookies, in order. */
  function Important(cookies: seq<Cookie>): (r: seq<Cookie>)
    ensures forall c :: c in r <==> c in cookies && c.name in ImportantNames
    decreases |cookies|
  {
    if cookies == [] then []
    else
      var last := cookies[|cookies| - 1];
      var front := cookies[..|cookies| - 1];
      assert cookies == front + [last];
      Important(front) + (if last.name in ImportantNames then [last] else [])
  }

  /** The filter distributes over concatenation: the kept cookies keep
      their relative order. */
  lemma {:induction false} ImportantAppend(a: seq<Cookie>, b: seq<Cookie>)
    ensures Important(a + b) == Important(a) + Important(b)
    decreases |b|
  {
    if b != [] {
      var front := b[..|b| - 1];
      ImportantAppend(a, front);
      assert (a + b)[..|a + b| - 1] == a + front;
      assert (a + b)[|a + b| - 1] == b[|b| - 1];
    } else {
      assert a + b == a;
    }
  }

  /** The `for (const c of important)` loop: later cookies overwrite
      earlier ones of the same name. */
  function RecordValues(cookies: seq<Cookie>): map<string, string>
    decreases |cookies|
  {
    if cookies == [] then map[]
    else
      var last := cookies[|cookies| - 1];
      RecordValues(cookies[..|cookies| - 1])[last.name := last.value]
  }

  /** `cookies[i]` is the last cookie named `name`. */
  predicate LastNamed(cookies: seq<Cookie>, name: string, i: int) {
    0 <= i < |cookies| && cookies[i].name == name && forall j :: i < j < |cookies| ==> cookies[j].name != name
  }

  /** The record holds a name exactly when some cookie has it, with the
      value of the last such cookie. */
  lemma {:induction false} RecordValuesLastWins(cookies: seq<Cookie>, name: string)
    ensures name in RecordValues(cookies) <==> exists i :: 0 <= i < |cookies| && cookies[i].name == name
    ensures name in RecordValues(cookies) ==> exists i :: LastNamed(cookies, name, i) && RecordValues(cookies)[name] == cookies[i].value
    decreases |cookies|
  {
    if cookies != [] {
      var n := |cookies| - 1;
      var front := cookies[..n];
      RecordValuesLastWins(front, name);
      assert forall i :: 0 <= i < n ==> front[i] == cookies[i];
      if cookies[n].name == name {
        assert LastNamed(cookies, name, n);
      } else if name in RecordValues(cookies) {
        var i :| LastNamed(front, name, i) && RecordValues(front)[name] == front[i].value;
        assert LastNamed(cookies, name, i);
      }
    }
  }

  /** For an important name, recording the filtered cookies gives what
      recording all of them would. */
  lemma {:induction false} ImportantRecordAgrees(cookies: seq<Cookie>, name: string)
    requires name in ImportantNames
    ensures (name in RecordValues(Important(cookies))) == (name in RecordValues(cookies))
    ensures name in RecordValues(cookies) ==> RecordValues(Important(cookies))[name] == RecordValues(cookies)[name]
    decreases |cookies|
  {
    if cookies != [] {
      var n := |cookies| - 1;
      var front := cookies[..n];
      var last := cookies[n];
      ImportantRecordAgrees(front, name);
      var imp := Important(front);
      if last.name in ImportantNames {
        assert Important(cookies) == imp + [last];
        assert (imp + [last])[..|imp|] == imp;
      } else {
        assert Important(cookies) == imp;
      }
    }
  }

  /** Only the six named cookies reach the record, each with the value of
      the last cookie of that name in the page's cookie list. */
  lemma RecordKeepsImportantOnly(cookies: seq<Cookie>, name: string)
    ensures name in RecordValues(Important(cookies)) <==> name in ImportantNames && exists c :: c in cookies && c.name == name
    ensures name in RecordValues(Important(cookies)) ==>
      exists i :: LastNamed(Important(cookies), name, i) && RecordValues(Important(cookies))[name] == Important(cookies)[i].value
    ensures name in RecordValues(Important(cookies)) ==>
      exists i :: LastNamed(cookies, name, i) && RecordValues(Important(cookies))[name] == cookies[i].value
  {
    var imp := Important(cookies);
    RecordValuesLastWins(imp, name);
    if name in RecordValues(imp) {
      var i :| 0 <= i < |imp| && imp[i].name == name;
      assert imp[i] in imp;
      ImportantRecordAgrees(cookies, name);
      RecordValuesLastWins(cookies, name);
    }
    if name in ImportantNames && exists c :: c in cookies && c.name == name {
      var c :| c in cookies && c.name == name;
      assert c in imp;
      var i :| 0 <= i < |imp| && imp[i] == c;
    }
  }

  /** The record written after a successful login. */
  method RecordSession(cookies: seq<Cookie>, now: int) returns (record: SessionRecord)
    ensures record == SessionRecord(now, RecordValues(Important(cookies)))
    ensures record.values.Keys <= ImportantNames
  {
    var important := Important(cookies);
    var data: map<string, string> := map[];
    var i := 0;
    while i < |important|
      invariant 0 <= i <= |important|
      invariant data == RecordValues(important[..i])
      invariant data.Keys <= ImportantNames
    {
      assert important[..i + 1][..i] == important[..i];
      assert important[i] in important;
      data := data[important[i].name := important[i].value];
      i := i + 1;
    }
    assert important[..i] == important;
    record := SessionRecord(now, data);
  }

  // ---------------------------------------------------------------------
  // The whole login (`getSessionCookiesPDC`)
  // ---------------------------------------------------------------------

  /** What the browser and the solver do during one login. */
  datatype Scene = Scene(
    /** the login page loads and `#username` appears */
    formShown: bool,
    /** the `src` of every frame, and every `data-sitekey` value, in
        document order */
    frameSrcs: seq<string>,
    dataSitekeys: seq<string>,
    submitAt: nat -> Exchange,
    pollAt: (nat, nat) -> Exchange,
    /** `form.submit()` navigates; otherwise the click fallback runs */
    submitNavigates: bool,
    textOf: string -> Option<string>,
    finalUrl: string,
    cookies: seq<Cookie>,
    now: int)

  /** The wait for a challenge frame or a sitekey element succeeds. */
  predicate ChallengeShown(scene: Scene) {
    ChallengeFrame(scene.frameSrcs).Some? || scene.dataSitekeys != []
  }

  /** The login gets as far as a solved Turnstile: the credentials are
      given, the form and the challenge show up, a non-empty sitekey is
      found and one of the three attempts yields a non-empty token (an
      empty `request` is as falsy as `null`). */
  predicate TokenObtained(username: string, password: string, scene: Scene) {
    username != [] && password != [] && scene.formShown && ChallengeShown(scene)
    && Truthy(ChooseSitekey(scene.frameSrcs, scene.dataSitekeys))
    && Truthy(Solve(scene.submitAt, scene.pollAt, 3, 1))
  }

  /** `getSessionCookiesPDC` with `debug` off. `form` is the page's form,
      null when there is none (the injection then raises and the login
      returns null). */
  method GetSessionCookies(username: string, password: string, scene: Scene, form: LoginForm?)
      returns (cookies: Option<seq<Cookie>>, launched: bool, clickFallback: bool, record: Option<SessionRecord>)
    modifies form
    ensures launched <==> username != [] && password != []
    ensures cookies.Some? <==> (TokenObtained(username, password, scene) && form != null
      && ErrorText(ErrorSelectors, scene.textOf).None? && !UrlShowsFailure(scene.finalUrl))
    ensures cookies.Some? ==> cookies.value == scene.cookies
    ensures cookies.Some? ==> record == Some(SessionRecord(scene.now, RecordValues(Important(scene.cookies))))
    ensures cookies.None? ==> record.None?
    ensures clickFallback ==> !scene.submitNavigates
    ensures form != null && TokenObtained(username, password, scene) ==>
      var token := Solve(scene.submitAt, scene.pollAt, 3, 1).value;
      form.inputs == Upsert(Upsert(old(form.inputs), "cf-turnstile-response", token), "g-recaptcha-response", token)
    ensures form != null && !TokenObtained(username, password, scene) ==> form.inputs == old(form.inputs)
  {
    cookies, launched, clickFallback, record := None, false, false, None;
    if username == [] || password == [] {
      return;
    }
    launched := true;
    if !scene.formShown || !ChallengeShown(scene) {
      return;
    }
    var sitekey := ChooseSitekey(scene.frameSrcs, scene.dataSitekeys);
    if !Truthy(sitekey) {
      return;
    }
    var token, pollCounts := SolveTurnstile(scene.submitAt, scene.pollAt, 3);
    if !Truthy(token) {
      return;
    }
    if form == null {
      return;
    }
    form.InjectToken(token.value);
    clickFallback := !scene.submitNavigates;
    var errorMsg := ErrorText(ErrorSelectors, scene.textOf);
    if errorMsg.Some? {
      return;
    }
    if UrlShowsFailure(scene.finalUrl) {
      return;
    }
    var saved := RecordSession(scene.cookies, scene.now);
    record := Some(saved);
    cookies := Some(scene.cookies);
  }
}
