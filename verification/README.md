# Permis de conduire slot bots — a Dafny model

The repository holds several bots that watch the French driving-licence
portal (`pro.permisdeconduire.gouv.fr`) for free exam slots:

- `main.py` — an HTTP bot. It logs in through the Keycloak (OIDC) form and
  lists slots as `ExamSlot` records. It reports the slots whose
  (date, hour, location) is new. It fans a batch out to e-mail, Telegram and
  a webhook, and keeps a 100-entry history.
- `permis_bot.py` — a Playwright bot. It classifies the CAPTCHA on the login
  page and may send a reCAPTCHA to 2Captcha. It clicks the submit button up
  to three times before falling back to a script click, then diffs slot texts.
- `hybride.py` — an undetected-chromedriver bot. It logs in without a proxy,
  then restarts Chrome behind a proxy and replays the session cookies.
- `permis_bot_copy.py` — a simpler chromedriver bot. It waits 180 s for the
  CAPTCHA with no fallback, navigates by link text, and monitors through
  errors.
- `puppeteerLogin.ts` — a Puppeteer login. It solves the Turnstile through
  2Captcha's submit/poll protocol, injects the token into hidden inputs and
  checks the result. It then keeps six session cookies.

The model states each bot's decision rules in Dafny and proves what they
guarantee. Browsers, HTTP replies and solver replies become inputs: page
records, functions from a read index or elapsed time to what that read
returns, and sequences of per-cycle outcomes. Loops that update state are
methods with loop invariants, proved against recursive reference functions.
Classes stand for the bot objects whose fields the source updates
(`previous_slots`, the history list, the driver, `proxy_enabled`, the form's
inputs).

| file | module | models |
|---|---|---|
| text.dfy | `Text` | substring search, `split`, `str.replace`, ASCII `lower`, JS `trim`, the two sitekey regexes |
| slot_monitor.dfy | `SlotMonitor` | main.py: `ExamSlot`, slot listing, `detect_new_slots`, notification fan-out, history, `monitor_loop` |
| oidc_form.dfy | `OidcForm` | main.py `login_oidc`: login payload, form action, token URL |
| captcha.dfy | `Captcha` | permis_bot.py `detect_captcha`, the 2Captcha gate |
| login_flow.dfy | `LoginFlow` | the button wait loop, click retry with script fallback, post-login URL check |
| slot_probe.dfy | `SlotProbe` | selector probing and text diffing of the three browser bots |
| scrapling_bot.dfy | `ScraplingBot` | permis_bot.py `PermisScraplingBot` |
| hybrid_bot.dfy | `HybridBot` | hybride.py `HybridPermisBot` |
| undetected_bot.dfy | `UndetectedBot` | permis_bot_copy.py `PermisBot` |
| puppeteer_login.dfy | `PuppeteerLogin` | puppeteerLogin.ts |

Two points on how the bots differ, both modelled as written:

- **main.py's memory.** `monitor_loop` always replaces `previous_slots`,
  even with `[]` after a failed fetch. A slot seen before a failed fetch is
  therefore reported again after it (`SlotMonitor.ReappearsAfterFailedFetch`).
  This follows the code as written.
- **The browser bots' memory.** They keep the previous list when a cycle
  finds nothing (`SlotProbe.VanishedTextNotReportedAgain`).

`permis_bot.py` also reads slot texts inside the same `try` as the `break`.
A text read that raises keeps the texts read so far and moves on to the
next selector (`SlotProbe.PlaywrightSlots`). The two probing rules agree
whenever every text can be read (`SlotProbe.PlaywrightAgreesWhenReadable`).

## Model

| member | source | states |
|---|---|---|
| `SlotMonitor.NewSlotsMembers` | main.py:290-304 | a slot is reported iff it is in the current list and no previous slot has its date, hour and location |
| `SlotMonitor.NewSlotsAppend` | main.py:292-304 | the diff splits over concatenation: reported slots keep the order of the current list, and a slot listed twice is reported twice |
| `SlotMonitor.NewSlotsAllUnseen` | main.py:292-304 | when no current slot is known, the report is the current list itself, same order, nothing added |
| `SlotMonitor.NewSlotsFromNothing` | main.py:290-304 | against an empty previous list every current slot is new |
| `SlotMonitor.NewSlotsSelf` | main.py:290-307 | diffing a list against itself reports nothing |
| `SlotMonitor.NewSlotsDependOnKeysOnly` | main.py:295-299 | exam type and place count of previous slots never change the report |
| `SlotMonitor.ParseSlot` | main.py:261-282 | an element yields a slot iff its date, hour and location spans are found and its places count converts; the exam type defaults to "conduite" |
| `SlotMonitor.ParsedSlotsAppend` | main.py:259-284 | parsing splits over concatenated element lists, so the slots keep the document order of their elements |
| `SlotMonitor.ParsedSlotsMembers` | main.py:261-284 | a slot is listed iff some element parses to it |
| `SlotMonitor.ParsedSlotsAllParse` | main.py:261-284 | when every element parses, nothing is dropped: slot k is the parse of element k |
| `SlotMonitor.NotificationBot.CheckAvailableSlots` | main.py:240-288 | the slots returned are `[]` on a non-200 reply or an exception, otherwise the elements that parse, in document order |
| `SlotMonitor.NotificationBot.DetectNewSlots` | main.py:290-307 | the nested `is_new` loop returns exactly the reference diff, then replaces the stored list by the current one |
| `SlotMonitor.FanOutSpec` | main.py:471-488 | a channel is called iff configured; calls go email, Telegram, webhook in that order; each result is that channel's own success |
| `SlotMonitor.FanOutIsolation` | main.py:309-401 | the set of channels called never depends on any transport outcome; Telegram's result depends only on its own transport |
| `SlotMonitor.KeepLast` | main.py:430 | `h[-n:]` has length min(len h, n) and is a suffix of h |
| `SlotMonitor.KeepLastConcat` | main.py:427-430 | cutting to the last 100 before appending more and cutting again gives the same list as one cut at the end |
| `SlotMonitor.AppendEachKeepsLast` | main.py:427-430 | any run of saves leaves the last (at most 100) records, in save order, newest last |
| `SlotMonitor.HundredFiftySaves` | main.py:427-430 | from an empty history, 150 saves leave records 51 to 150 |
| `SlotMonitor.AppendEachSnoc` | main.py:427-430 | one more save after a run of saves is one more append followed by the cut to 100 |
| `SlotMonitor.NotificationBot.SaveSlotsToFile` | main.py:403-431 | the history after a save is at most 100 long and ends with the new record |
| `SlotMonitor.NotificationBot.MonitorCycle` | main.py:453-493 | one pass fetches, diffs, and only on a non-empty diff fans out and appends one history record |
| `SlotMonitor.RunReports` | main.py:451-497 | a run produces exactly one report per cycle |
| `SlotMonitor.RunReportsAt` | main.py:457-461 | cycle k is diffed against the slots of cycle k-1 only |
| `SlotMonitor.RunReportsStep` | main.py:457-461 | one more cycle appends the diff of its slots against the previous fetch's slots, and the memory becomes its own slots, `[]` after a failed fetch |
| `SlotMonitor.SavedRecordsStep` | main.py:462-491 | a cycle with an empty diff saves nothing; one with new slots saves one record with its timestamp, their count and the slots |
| `SlotMonitor.HistoryStep` | main.py:403-431 | the history after one more cycle is the earlier one with that cycle's save, if it made one, appended and cut to 100 |
| `SlotMonitor.FannedOutStep` | main.py:464-488 | the fan-out results grow by one cycle: nothing for an empty diff, otherwise the configured channels' results under that cycle's transports |
| `SlotMonitor.CycleStep` | main.py:451-493 | when the first i cycles have reached the reference run, what cycle i returns (its diff, its fan-out, its saved record) reaches the reference run of the first i + 1 cycles |
| `SlotMonitor.LoopDone` | main.py:440-497 | once every cycle has run, the reached state is the whole reference run: reports, memory, fan-out results and history |
| `SlotMonitor.ReappearsAfterFailedFetch` | main.py:250-252 | after fetches ok, failed, ok (from an empty memory) the three reports are all of ok's slots, nothing, and all of ok's slots again |
| `SlotMonitor.SecondIdenticalCycleSilent` | main.py:306 | the second of two identical cycles reports nothing |
| `SlotMonitor.NotificationBot.MonitorLoop` | main.py:440-497 | the reports are the reference run reports; the memory is the last fetch's slots; cycle k fans out, under its own transports, exactly when its diff is non-empty; the history is the old one plus one save per non-empty report, stamped with its cycle's time, cut to 100 |
| `OidcForm.FieldsCredentials` | main.py:115-118 | an input named username or password always maps to the supplied credential |
| `OidcForm.PayloadCredentials` | main.py:104-128 | the payload always carries both supplied credentials, whatever the form declares |
| `OidcForm.AddInputOtherKey` | main.py:107-122 | one input adds or overwrites its key iff it is a named hidden/submit input; other keys are untouched |
| `OidcForm.FieldsOtherKeys` | main.py:107-122 | a non-credential key is present iff some hidden or submit input has that name |
| `OidcForm.FieldsLastWins` | main.py:119-121 | such a key holds the value of the last input of that name (default `''`) |
| `OidcForm.PayloadKeys` | main.py:104-128 | the final payload holds exactly the credentials and the named hidden/submit inputs |
| `OidcForm.BuildLoginData` | main.py:104-128 | the `login_data` loop builds exactly the reference payload |
| `OidcForm.ResolveAction` | main.py:96-99 | a missing action fails; an action starting with `http` is kept as it is; any other gets `scheme://netloc` of the login page in front |
| `OidcForm.ResolveActionIdempotent` | main.py:96-99 | resolving an already resolved action again changes nothing |
| `OidcForm.TokenUrlRewritesAuthHost` | main.py:194 | on any `https://auth...` URL the replace also rewrites the host to `token...` |
| `OidcForm.TokenUrlRewritesHost` | main.py:520 | with the configured auth URL the token request goes to a `token.` host, not the `auth.` host |
| `OidcForm.IntendedTokenUrlKeepsHost` | main.py:194 | rewriting only the last `/auth` segment keeps the host and the realm path |
| `Captcha.DataSitekey` | permis_bot.py:149-151 | a key iff `data-sitekey="…"` matches somewhere in the page, and then the group of the leftmost match |
| `Captcha.RecaptchaSitekey` | permis_bot.py:167-168 | the text right after the first `k=` of the frame URL, running to the next `&`, the next `k=` or the end of the URL; it holds no `&` |
| `Captcha.DetectCaptcha` | permis_bot.py:136-213 | each kind is returned iff its own test fires and no earlier test fires, in the order Turnstile, reCAPTCHA v2, v3, hCaptcha, disabled button; invisible iff v3; the v2 key is the cut of the frame URL; nothing on an unreadable page or when no test fires |
| `Captcha.HCaptchaNeverReported` | permis_bot.py:188-198 | the hCaptcha branch can never return: its regex needs text the Turnstile test already caught |
| `Captcha.SolveCaptcha` | permis_bot.py:215-254 | a token comes back iff an API key is set, a sitekey is present, the kind is v2 or hCaptcha and the solver answers |
| `Captcha.SolverOnlyForRecaptchaV2` | permis_bot.py:352-397 | on a classified page the solver only ever produces a token for reCAPTCHA v2, never on the invisible branch |
| `LoginFlow.WaitUntilEnabled` | permis_bot.py:363-386 | the loop stops at the first two-second read that finds the button enabled or at the bound; it prompts iff the final read is still disabled |
| `LoginFlow.SubmitWithRetry` | permis_bot.py:432-457 | at most 3 clicks; the script click runs iff every click raised; submission fails iff the script click raised too |
| `LoginFlow.AuthHostIsFailure` | permis_bot.py:465 | any URL on the identity provider's `auth.` host counts as a failed login |
| `SlotProbe.FirstHit` | hybride.py:366-373 | the probe stops at the first selector returning elements; raising selectors are skipped |
| `SlotProbe.FirstHitAt` | hybride.py:366-373 | a loop that stopped at a hit after only misses found the first hit |
| `SlotProbe.FirstTen` | hybride.py:375 | at most ten elements, a prefix of the matches |
| `SlotProbe.ReadableTexts` | hybride.py:375-381 | the kept texts are non-empty and no more than the elements read |
| `SlotProbe.ReadableTextsMembers` | hybride.py:375-381 | a text is kept iff it is non-empty and some element reads to it |
| `SlotProbe.ReadableTextsAppend` | hybride.py:375-381 | the read splits over concatenation: kept texts stay in element order, one per readable non-empty element |
| `SlotProbe.SeleniumSlotsAtFirstHit` | hybride.py:365-383 | the slots are the readable texts of the first ten elements of the first hit, or nothing |
| `SlotProbe.SeleniumSlotsShape` | permis_bot_copy.py:229-257 | at most ten non-empty texts, all from that one selector |
| `SlotProbe.FindFirstHit` | hybride.py:365-373 | the selector loop returns the elements of the first selector that finds any, `[]` exactly when none does |
| `SlotProbe.ReadSlotTexts` | hybride.py:375-381 | the text loop keeps the non-empty texts that read without raising, in element order |
| `SlotProbe.TextsBeforeRaise` | permis_bot.py:540-544 | the texts kept before a raise are no more than the elements |
| `SlotProbe.TextsBeforeRaiseReadable` | permis_bot.py:540-544 | when nothing raises, the Playwright read keeps the same texts as the Selenium read |
| `SlotProbe.TextsBeforeRaiseIsPrefix` | permis_bot.py:540-544 | the texts kept are the Selenium read of the elements before the first one whose text raises, all of them when none does |
| `SlotProbe.SplitEnds` | hybride.py:375-381 | reading front-first and back-first gives the same texts |
| `SlotProbe.PlaywrightAgreesWhenReadable` | permis_bot.py:535-546 | when no hit's text raises, permis_bot.py finds the same slots as the Selenium bots |
| `SlotProbe.PlaywrightSlotsBound` | permis_bot.py:535-546 | at most ten texts per selector probed |
| `SlotProbe.FreshTexts` | permis_bot.py:570 | the new texts are no more than the current ones |
| `SlotProbe.FreshTextsMembers` | permis_bot.py:570 | a text is new iff it is current and absent from the previous list |
| `SlotProbe.FreshTextsAppend` | permis_bot.py:570 | the comprehension splits over concatenation: new texts keep the current order, and a text listed twice is reported twice |
| `SlotProbe.FreshTextsFromNothing` | permis_bot.py:570 | against an empty memory every current text is new |
| `SlotProbe.TextRunReports` | permis_bot.py:561-589 | one report per cycle run |
| `SlotProbe.TextRunStep` | permis_bot.py:565-580 | each cycle adds one report and updates the memory only when it found something |
| `SlotProbe.VanishedTextNotReportedAgain` | permis_bot.py:567-582 | a text that vanishes for one cycle is not reported again when it comes back |
| `SlotProbe.CurrentsStep` | hybride.py:401-432 | one more cycle appends its own slots to the list of currents |
| `SlotProbe.PlaywrightRunAdvance` | permis_bot.py:565-580 | a Playwright cycle that reports its fresh texts and keeps its non-empty list as the memory moves the reference run one cycle on |
| `SlotProbe.SeleniumRunAdvance` | hybride.py:401-432 | a Selenium cycle that reports its fresh texts and keeps its non-empty list as the memory moves the reference run one cycle on |
| `SlotProbe.CyclesRun` | hybride.py:400-437 | a loop with no handler inside runs until the first raising reload, or through every cycle |
| `SlotProbe.RunLengthIsFirstRaise` | permis_bot.py:560-594 | a loop that ran only non-raising reloads before its last cycle ran exactly that many cycles |
| `ScraplingBot.PermisScraplingBot.Login` | permis_bot.py:289-489 | login succeeds iff the form and button appear, the submission goes through and the final URL is off the login pages; a token only ever comes from reCAPTCHA v2 with a key |
| `ScraplingBot.PermisScraplingBot.ReadTexts` | permis_bot.py:540-544 | the loop keeps the reference texts and reports whether a read raised |
| `ScraplingBot.PermisScraplingBot.CheckAvailableSlots` | permis_bot.py:522-552 | the method returns the reference Playwright slots |
| `ScraplingBot.PermisScraplingBot.MonitorCycle` | permis_bot.py:565-580 | one cycle reports the fresh texts and updates the memory only when something was found |
| `ScraplingBot.PermisScraplingBot.MonitorLoop` | permis_bot.py:554-594 | reports and memory match the reference run over the cycles before the first raising reload; the browser is closed |
| `ScraplingBot.PermisScraplingBot.Close` | permis_bot.py:596-600 | the browser and Playwright are stopped |
| `ScraplingBot.PermisScraplingBot.SetupBrowser` | permis_bot.py:21-103 | setup succeeds iff Playwright starts, the browser launches and the page opens; Playwright runs once started and the browser is open once launched, even if a later step raises |
| `HybridBot.ProxyArgument` | hybride.py:33-42 | the switch is `--proxy-server=http://`, then `user:pass@` exactly when both credentials are truthy and nothing otherwise, then host:port |
| `HybridBot.HybridPermisBot.SetupDriver` | hybride.py:22-67 | the proxy flag is raised before the launch, so a failed launch leaves it set |
| `HybridBot.HybridPermisBot.Login` | hybride.py:69-250 | success iff form, button, a click that goes through and a final URL off the login pages; found error texts only report |
| `HybridBot.Replayed` | hybride.py:287-294 | the restored cookies are no more than the captured ones |
| `HybridBot.ReplayedMembers` | hybride.py:287-294 | a cookie is restored iff one of its copies was added without raising |
| `HybridBot.ReplayedAppend` | hybride.py:287-294 | the replay splits over concatenation, later cookies keeping their positions: restored cookies stay in capture order |
| `HybridBot.ReplayedAll` | hybride.py:287-294 | when no add raises the session is carried over whole and in order |
| `HybridBot.HybridPermisBot.SwitchToProxy` | hybride.py:252-316 | no proxy means success with nothing changed; otherwise quit, relaunch behind the proxy, replay each cookie once, succeed iff the landing URL is off `auth.` |
| `HybridBot.HybridPermisBot.ReplayCookies` | hybride.py:287-294 | every captured cookie is tried once; the new browser holds, in order, those whose add did not raise |
| `HybridBot.HybridPermisBot.CheckAvailableSlots` | hybride.py:351-387 | the method returns the reference Selenium slots |
| `HybridBot.HybridPermisBot.MonitorCycle` | hybride.py:405-423 | one cycle reports the fresh texts and updates the memory only when something was found |
| `HybridBot.HybridPermisBot.MonitorLoop` | hybride.py:389-437 | reports and memory match the reference run up to the first raising refresh; the driver is quit |
| `HybridBot.HybridPermisBot.Close` | hybride.py:439-443 | an open driver is quit |
| `UndetectedBot.ErrorCountStep` | permis_bot_copy.py:308-311 | one more iteration adds one to the count exactly when its refresh raised |
| `UndetectedBot.ErrorCountCounts` | permis_bot_copy.py:308-311 | the count is the number of cycles whose refresh raised |
| `UndetectedBot.PermisBot.WaitForCaptcha` | permis_bot_copy.py:111-120 | solved iff some half-second read within 180 s finds the button enabled; every read before it was disabled |
| `UndetectedBot.PermisBot.Login` | permis_bot_copy.py:46-166 | success iff the CAPTCHA was solved in time, the click did not raise and the final URL is off the login pages; there is no manual fallback |
| `UndetectedBot.PermisBot.NavigateToReservations` | permis_bot_copy.py:168-211 | the first link text, in list order, that some link contains is clicked; none found or a raising click gives false |
| `UndetectedBot.PermisBot.CheckAvailableSlots` | permis_bot_copy.py:213-261 | the method returns the reference Selenium slots, `[]` when no selector matches |
| `UndetectedBot.PermisBot.MonitorCycle` | permis_bot_copy.py:278-311 | one cycle reports the fresh texts; an error after it leaves the memory alone |
| `UndetectedBot.PermisBot.MonitorLoop` | permis_bot_copy.py:263-316 | every cycle runs whatever raised before; reports and memory match the reference run; errors are counted; the browser is closed |
| `UndetectedBot.PermisBot.Close` | permis_bot_copy.py:318-322 | the driver is quit |
| `UndetectedBot.PermisBot.SetupDriver` | permis_bot_copy.py:17-44 | the launch succeeds iff Chrome starts, and only a successful launch opens the driver |
| `PuppeteerLogin.PollOutcome` | puppeteerLogin.ts:48-78 | a token is the request of a status-1 poll reply; 40 polls that all answer "not ready" give none |
| `PuppeteerLogin.PollSolvedIff` | puppeteerLogin.ts:48-78 | polling yields a token iff a status-1 reply comes within the 40 polls after nothing but "not ready" replies, and the token is that reply's request; a raise or any other reply ends the polling |
| `PuppeteerLogin.AttemptOutcome` | puppeteerLogin.ts:20-78 | an attempt yields a token iff its submission is answered with status 1 and a status-1 poll then follows nothing but "not ready" replies; the token is that poll's request |
| `PuppeteerLogin.Solve` | puppeteerLogin.ts:15-96 | a non-null result is always the request of a status-1 poll reply of some attempt |
| `PuppeteerLogin.SolveNoneIffAllFail` | puppeteerLogin.ts:16-95 | null iff every attempt fails; a failed attempt never stops later ones |
| `PuppeteerLogin.SolveIsFirstSuccess` | puppeteerLogin.ts:16-95 | a token is that of the first successful attempt |
| `PuppeteerLogin.LastRefusalGivesNull` | puppeteerLogin.ts:35-42 | a refused submission on the last attempt, after failures, returns null |
| `PuppeteerLogin.PollForToken` | puppeteerLogin.ts:48-78 | at most 40 polls; the loop returns the reference poll outcome, read from its last poll |
| `PuppeteerLogin.SolveTurnstile` | puppeteerLogin.ts:15-96 | at most maxRetries submissions, at most 40 polls after each; the result is the reference outcome |
| `PuppeteerLogin.ChallengeFrame` | puppeteerLogin.ts:149 | the first frame whose src names the Cloudflare challenge host; none iff no frame does |
| `PuppeteerLogin.FrameSitekey` | puppeteerLogin.ts:149-153 | a key iff the challenge frame's src matches `sitekey=([^&]+)`, and then the group of the leftmost match: a non-empty run of non-`&` text |
| `PuppeteerLogin.ChooseSitekey` | puppeteerLogin.ts:148-157 | the frame's sitekey first, else the first `data-sitekey` attribute, else null |
| `PuppeteerLogin.EmptySitekeyComesFromAttribute` | puppeteerLogin.ts:155-162 | an empty sitekey can only come from the attribute, and it stops the login |
| `PuppeteerLogin.ErrorText` | puppeteerLogin.ts:258-274 | the non-empty trimmed text of the first selector whose text is not blank; null iff every selector's text is missing or blank |
| `PuppeteerLogin.BlankErrorsIgnored` | puppeteerLogin.ts:269-273 | error elements holding only whitespace do not fail the login |
| `PuppeteerLogin.UrlFailureComparedWithBots` | puppeteerLogin.ts:292-294 | every URL rejected here is rejected by the Python bots too, or is a Cloudflare `cdn-cgi` page; every `auth.` URL is rejected by both |
| `PuppeteerLogin.FirstNamed` | puppeteerLogin.ts:183 | the first input of that name, or none when no input has it |
| `PuppeteerLogin.Upsert` | puppeteerLogin.ts:182-194 | after `ensureHidden` the name reads the value; a hidden input is appended only when none existed; other inputs are untouched |
| `PuppeteerLogin.UpsertTwice` | puppeteerLogin.ts:182-194 | a second call adds no input, and with the same value changes nothing |
| `PuppeteerLogin.UpsertOtherName` | puppeteerLogin.ts:196-197 | setting one name leaves what another name reads |
| `PuppeteerLogin.LoginForm.EnsureHidden` | puppeteerLogin.ts:182-194 | the form's inputs become the reference upsert |
| `PuppeteerLogin.LoginForm.InjectToken` | puppeteerLogin.ts:196-197 | both response fields read the token afterwards |
| `PuppeteerLogin.Important` | puppeteerLogin.ts:315-317 | a cookie is kept iff it has one of the six names |
| `PuppeteerLogin.ImportantAppend` | puppeteerLogin.ts:315-317 | the filter splits over concatenation, so the kept cookies stay in page order |
| `PuppeteerLogin.RecordValuesLastWins` | puppeteerLogin.ts:320 | a name is recorded iff some cookie has it, with the last such cookie's value |
| `PuppeteerLogin.ImportantRecordAgrees` | puppeteerLogin.ts:315-320 | for one of the six names, recording the filtered cookies gives what recording every cookie would |
| `PuppeteerLogin.RecordKeepsImportantOnly` | puppeteerLogin.ts:315-320 | a name reaches the record iff it is one of the six and some cookie has it, with the value of the last cookie of that name among everything the page returned |
| `PuppeteerLogin.RecordSession` | puppeteerLogin.ts:319-320 | the record is the timestamp plus the reference values, keys among the six names |
| `PuppeteerLogin.GetSessionCookies` | puppeteerLogin.ts:98-343 | no launch without both credentials; cookies iff a non-empty token was obtained, the form exists, no error text shows and the URL is off the login pages; the full cookie list is returned; the form changes only by the token injection; a navigation failure alone never fails |
| `Text.BeforeFirst` | permis_bot.py:168 | `split(sep)[0]`: a prefix holding no `sep` that ends right before the first `sep`, or the whole string when there is none |
| `Text.SecondPiece` | permis_bot.py:168 | `split(sep)[1]`: the text right after the first `sep`, up to the next `sep` or the end; it holds no `sep` |
| `Text.ReplaceAbsent` | main.py:194 | replacing a pattern that never occurs changes nothing |
| `Text.ReplaceHead` | main.py:194 | a pattern at the front is replaced and the scan goes on after it |
| `Text.ReplaceUntouched` | main.py:194 | a prefix in which the pattern starts nowhere is copied unchanged |
| `Text.CaptureIsFirstMatch` | permis_bot.py:149 | a `prefix([^stop]+)` search finds a group iff the expression matches somewhere, and then the group of the leftmost match |
| `Text.TrimEmptyIffBlank` | puppeteerLogin.ts:269 | `trim()` is empty iff the text is all whitespace |
| `Text.TrimStartShape` | puppeteerLogin.ts:270 | trimming the front drops only whitespace and stops at a non-blank |
| `Text.TrimEndShape` | puppeteerLogin.ts:270 | trimming the back drops only whitespace and stops at a non-blank |

## Left out

- Browser drivers (Playwright, Selenium, undetected-chromedriver, Puppeteer), stealth scripts, user agents and launch options. Pages are given as records of what the bots read.
- `test_bypass` only visits a bot-detection test page, so it has no model. `setup_browser` (permis_bot.py) and `setup_driver` (permis_bot_copy.py) are modelled only by the flags they leave set; the launch options are left out.
- `inject_captcha_token` (permis_bot.py) runs page scripts whose effect is not visible to the bot. Its only modelled effect is that the login goes on to the button check.
- `navigate_to_reservations` of permis_bot.py and hybride.py is not modelled. The permis_bot_copy.py one is; the other two differ only in their link lists and selectors.
- Network clients are not modelled: the requests session, SMTP, Telegram and webhook payload formatting, the 2Captcha HTTP calls, and the OIDC code-for-token exchange of `login_oidc` after the payload is built. Their outcomes are inputs.
- File I/O is not modelled: the HTML debug dumps, JSON load/dump of `slots_history.json`, and writing `cookies_session.json`. The in-memory history list and the cookie record are modelled.
- Sleeps, random delays, elapsed-time printing and `print` output are not modelled.
- The `__str__` of `ExamSlot` is display only and is not modelled.
- `input()` prompts are not modelled: a manual confirmation returns without changing anything the model tracks. The `prompted` result only says that one would happen.
- KeyboardInterrupt is not modelled. A monitor run is a finite list of cycles, and the interrupt comes after the last one.
- `Promise.all` navigation races and the never-resolving debug promise of `getSessionCookiesPDC` are not modelled. The model covers `debug` off.
- The `formPayload` read-back of puppeteerLogin.ts is not modelled; it is only logged.
- The Turnstile callback invocation in the injected script is not modelled; its failures are silenced.
- ParsedSlots: its own contract is only a length bound; which slots it yields, and in what order, is stated by `ParsedSlotsMembers`, `ParsedSlotsAppend` and `ParsedSlotsAllParse`.
- NewSlots: its own contract is only a length bound; which slots it keeps is stated by `NewSlotsMembers`, and order and repetition by `NewSlotsAppend`.
- ReadableTexts: its own contract is only a length bound; which texts it keeps is stated by `ReadableTextsMembers`, and order and repetition by `ReadableTextsAppend`.
- FreshTexts: its own contract is only a length bound; which texts it keeps is stated by `FreshTextsMembers`, and order and repetition by `FreshTextsAppend`.
- Replayed: its own contract is only a length bound; which cookies it keeps is stated by `ReplayedMembers`, and order and repetition by `ReplayedAppend`.
- TextsBeforeRaise: its own contract is only a length bound; what it keeps is stated by `TextsBeforeRaiseIsPrefix`.
- PollOutcome: its own contract states only soundness; the exact condition for a token is `PollSolvedIff`.
- Regular expressions and BeautifulSoup parsing are reduced to the captures the bots use. This covers the sitekey regexes, the reCAPTCHA-v3 regex (subsumed by its two substring tests) and the span lookups of `ExamSlot` parsing. `int(places.split()[0])` is taken as already converted or failed.
- The scene flags `formShown` (puppeteerLogin.ts) and `formAppears` (permis_bot.py, hybride.py, permis_bot_copy.py) mean the whole login form showed up, `#password` included. A page with `#username` but no `#password`, where typing the password raises and the login fails, is not a separate case.
- Case folding and trimming are ASCII plus the common Unicode blanks; there is no full Unicode `lower()` or `trim()`.
- `expiry` float-to-int conversion is not modelled; the expiry is already an integer.
- The waits are modelled as fixed read steps. The `elapsed` loops of permis_bot.py and hybride.py read every 2 s. The `WebDriverWait` of permis_bot_copy.py is modelled as 361 half-second reads over 180 s.
- The "Checking your browser" re-read in permis_bot.py login has no effect on the outcome and is not modelled.
- `index.ts` and `complet copy.ts` are not part of this model. They are wrappers around remote scraping services.

## Findings

| source | as written | input that shows it | evidently intended | confidence | as-written member | corrected member |
|---|---|---|---|---|---|---|
| main.py:194 | `self.auth_url.replace('/auth', '/token')` replaces every `/auth`, including the `//auth` of the host | the configured `https://auth.permisdeconduire.gouv.fr/realms/formation/protocol/openid-connect/auth` becomes `https://token.permisdeconduire.gouv.fr/...` | only the final `/auth` path segment becomes `/token`, keeping the `auth.` host | not executed | `OidcForm.TokenUrlRewritesHost` | `OidcForm.IntendedTokenUrlKeepsHost` |
