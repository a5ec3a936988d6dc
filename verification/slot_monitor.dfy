/** The HTTP-based notification bot of main.py: slot listing, change
    detection keyed on (date, hour, location), the notification fan-out and
    the 100-entry history list. Network replies are inputs. */
module SlotMonitor {
  import opened Text

  /** One bookable exam slot (`ExamSlot`). */
  datatype ExamSlot = ExamSlot(date: string, hour: string, location: string, examType: string, placesAvailable: int)

  /** Two slots denote the same appointment: same date, hour and location.
      Exam type and remaining places take no part. */
  predicate SameKey(a: ExamSlot, b: ExamSlot) {
    a.date == b.date && a.hour == b.hour && a.location == b.location
  }

  predicate KeyIn(s: ExamSlot, slots: seq<ExamSlot>) {
    exists j :: 0 <= j < |slots| && SameKey(s, slots[j])
  }

  /** Reference definition of the change detection: the slots of `current`,
      in their order, whose key matches no slot of `previous`. */
  function NewSlots(previous: seq<ExamSlot>, current: seq<ExamSlot>): seq<ExamSlot>
    decreases |current|
  {
    if current == [] then []
    else
      var last := current[|current| - 1];
      NewSlots(previous, current[..|current| - 1]) + (if KeyIn(last, previous) then [] else [last])
  }

  /** A slot is reported exactly when it is current and its key is unseen. */
  lemma {:induction false} NewSlotsMembers(previous: seq<ExamSlot>, current: seq<ExamSlot>, s: ExamSlot)
    ensures s in NewSlots(previous, current) <==> s in current && !KeyIn(s, previous)
    decreases |current|
  {
    if current != [] {
      var front := current[..|current| - 1];
      NewSlotsMembers(previous, front, s);
      assert current == front + [current[|current| - 1]];
    }
  }

  /** The diff splits over concatenation: the reported slots keep the
      order of `current`, and a slot listed twice is reported twice. */
  lemma {:induction false} NewSlotsAppend(previous: seq<ExamSlot>, a: seq<ExamSlot>, b: seq<ExamSlot>)
    ensures NewSlots(previous, a + b) == NewSlots(previous, a) + NewSlots(previous, b)
    decreases |b|
  {
    if b != [] {
      var front := b[..|b| - 1];
      NewSlotsAppend(previous, a, front);
      assert (a + b)[..|a + b| - 1] == a + front;
      assert (a + b)[|a + b| - 1] == b[|b| - 1];
    } else {
      assert a + b == a;
    }
  }

  /** When no current slot is known yet, the report is `current` itself:
      nothing is dropped, added or reordered. */
  lemma {:induction false} NewSlotsAllUnseen(previous: seq<ExamSlot>, current: seq<ExamSlot>)
    requires forall i :: 0 <= i < |current| ==> !KeyIn(current[i], previous)
    ensures NewSlots(previous, current) == current
    decreases |current|
  {
    if current != [] {
      NewSlotsAllUnseen(previous, current[..|current| - 1]);
    }
  }

  /** Nothing is new against an empty previous cycle. */
  lemma NewSlotsFromNothing(current: seq<ExamSlot>)
    ensures NewSlots([], current) == current
  {
    NewSlotsAllUnseen([], current);
  }

  /** Diffing a list against itself reports nothing. */
  lemma {:induction false} NewSlotsSelf(current: seq<ExamSlot>)
    ensures NewSlots(current, current) == []
  {
    var r := NewSlots(current, current);
    if r != [] {
      NewSlotsMembers(current, current, r[0]);
    }
  }

  /** Only the keys of the previous cycle matter: two previous lists with the
      same keys give the same report, whatever their types and place counts. */
  lemma {:induction false} NewSlotsDependOnKeysOnly(p: seq<ExamSlot>, q: seq<ExamSlot>, current: seq<ExamSlot>)
    requires forall s :: KeyIn(s, p) <==> KeyIn(s, q)
    ensures NewSlots(p, current) == NewSlots(q, current)
    decreases |current|
  {
    if current != [] {
      NewSlotsDependOnKeysOnly(p, q, current[..|current| - 1]);
    }
  }

  /** One `<div class="slot-disponible">` as BeautifulSoup sees it: the
      stripped text of each inner span (absent when the span is missing), the
      `data-type` attribute, and the integer that `int(text.split()[0])`
      yields from the places span (absent when that conversion raises). */
  datatype SlotElement = SlotElement(
    dateText: Option<string>, hourText: Option<string>, locationText: Option<string>,
    dataType: Option<string>, places: Option<int>)

  /** The parse of one element; `None` where the source's per-element
      `try` swallows an exception and skips the element. */
  function ParseSlot(e: SlotElement): (r: Option<ExamSlot>)
    ensures r.Some? <==> e.dateText.Some? && e.hourText.Some? && e.locationText.Some? && e.places.Some?
    ensures r.Some? ==> r.value.examType == (if e.dataType.Some? then e.dataType.value else "conduite")
  {
    if e.dateText.Some? && e.hourText.Some? && e.locationText.Some? && e.places.Some? then
      Some(ExamSlot(e.dateText.value, e.hourText.value, e.locationText.value,
                    if e.dataType.Some? then e.dataType.value else "conduite", e.places.value))
    else None
  }

  /** The slots parsed from the elements, in document order. */
  function ParsedSlots(elements: seq<SlotElement>): (r: seq<ExamSlot>)
    ensures |r| <= |elements|
    decreases |elements|
  {
    if elements == [] then []
    else
      var p := ParseSlot(elements[|elements| - 1]);
      ParsedSlots(elements[..|elements| - 1]) + (if p.Some? then [p.value] else [])
  }

  /** Parsing distributes over concatenation: the slots keep the document
      order of their elements, one per element that parses. */
  lemma {:induction false} ParsedSlotsAppend(a: seq<SlotElement>, b: seq<SlotElement>)
    ensures ParsedSlots(a + b) == ParsedSlots(a) + ParsedSlots(b)
    decreases |b|
  {
    if b != [] {
      var front := b[..|b| - 1];
      ParsedSlotsAppend(a, front);
      assert (a + b)[..|a + b| - 1] == a + front;
      assert (a + b)[|a + b| - 1] == b[|b| - 1];
    } else {
      assert a + b == a;
    }
  }

  /** A slot is listed exactly when some element parses to it. */
  lemma {:induction false} ParsedSlotsMembers(elements: seq<SlotElement>, s: ExamSlot)
    ensures s in ParsedSlots(elements) <==> exists i :: 0 <= i < |elements| && ParseSlot(elements[i]) == Some(s)
    decreases |elements|
  {
    if elements != [] {
      var front := elements[..|elements| - 1];
      ParsedSlotsMembers(front, s);
      assert forall i :: 0 <= i < |front| ==> front[i] == elements[i];
      if ParseSlot(elements[|elements| - 1]) == Some(s) {
        assert s in ParsedSlots(elements);
      }
    }
  }

  /** When every element parses, nothing is dropped: the k-th slot is the
      parse of the k-th element. */
  lemma {:induction false} ParsedSlotsAllParse(elements: seq<SlotElement>)
    requires forall i :: 0 <= i < |elements| ==> ParseSlot(elements[i]).Some?
    ensures |ParsedSlots(elements)| == |elements|
    ensures forall k :: 0 <= k < |elements| ==> Some(ParsedSlots(elements)[k]) == ParseSlot(elements[k])
    decreases |elements|
  {
    if elements != [] {
      ParsedSlotsAllParse(elements[..|elements| - 1]);
    }
  }

  /** The reply to `GET /reservations/disponibilites`. */
  datatype FetchOutcome = FetchRaised | Response(status: int, elements: seq<SlotElement>)

  /** What `check_available_slots` returns for a reply. */
  function SlotsOf(fetch: FetchOutcome): seq<ExamSlot> {
    if fetch.Response? && fetch.status == 200 then ParsedSlots(fetch.elements) else []
  }

  // ---------- notification fan-out ----------

  datatype Channel = Email | Telegram | Webhook

  datatype ChannelResult = ChannelResult(channel: Channel, success: bool)

  datatype EmailSettings = EmailSettings(smtpServer: string, smtpPort: int, sender: string, password: string, recipient: string)
  datatype TelegramSettings = TelegramSettings(botToken: string, chatId: string)
  datatype WebhookSettings = WebhookSettings(url: string)

  /** The `notification_config` dictionary; each channel is optional. */
  datatype NotificationConfig = NotificationConfig(
    email: Option<EmailSettings>, telegram: Option<TelegramSettings>, webhook: Option<WebhookSettings>)

  /** How the SMTP session ended: an exception anywhere, or the message sent. */
  datatype SmtpOutcome = SmtpRaised | SmtpSent

  /** How an HTTP POST ended: an exception, or a status code. */
  datatype HttpOutcome = HttpRaised | HttpStatus(code: int)

  /** The transport outcome each sender would meet if called. */
  datatype Transports = Transports(smtp: SmtpOutcome, telegram: HttpOutcome, webhook: HttpOutcome)

  /** What each sender returns: exceptions are caught and give `False`;
      Telegram needs status 200, the webhook 200 or 204. */
  predicate Succeeds(c: Channel, t: Transports) {
    match c
    case Email => t.smtp == SmtpSent
    case Telegram => t.telegram == HttpStatus(200)
    case Webhook => t.webhook == HttpStatus(200) || t.webhook == HttpStatus(204)
  }

  predicate Configured(c: Channel, config: Option<NotificationConfig>) {
    config.Some? &&
    match c
    case Email => config.value.email.Some?
    case Telegram => config.value.telegram.Some?
    case Webhook => config.value.webhook.Some?
  }

  function Rank(c: Channel): nat {
    match c
    case Email => 0
    case Telegram => 1
    case Webhook => 2
  }

  /** The senders called by `monitor_loop` for one batch, with what each
      returned: email, then Telegram, then the webhook, each only if
      configured, each isolated from the others' failures. */
  function FanOut(config: Option<NotificationConfig>, t: Transports): seq<ChannelResult> {
    (if Configured(Email, config) then [ChannelResult(Email, Succeeds(Email, t))] else [])
    + (if Configured(Telegram, config) then [ChannelResult(Telegram, Succeeds(Telegram, t))] else [])
    + (if Configured(Webhook, config) then [ChannelResult(Webhook, Succeeds(Webhook, t))] else [])
  }

  /** Exactly the configured channels are attempted, each once, in the
      order email, Telegram, webhook, and each result is what that
      channel's sender returns. */
  lemma FanOutSpec(config: Option<NotificationConfig>, t: Transports)
    ensures forall c: Channel :: Configured(c, config) <==>
      exists i :: 0 <= i < |FanOut(config, t)| && FanOut(config, t)[i].channel == c
    ensures forall i :: 0 <= i < |FanOut(config, t)| ==>
      FanOut(config, t)[i].success == Succeeds(FanOut(config, t)[i].channel, t)
    ensures forall i, j :: 0 <= i < j < |FanOut(config, t)| ==>
      Rank(FanOut(config, t)[i].channel) < Rank(FanOut(config, t)[j].channel)
  {
    var email := if Configured(Email, config) then [ChannelResult(Email, Succeeds(Email, t))] else [];
    var telegram := if Configured(Telegram, config) then [ChannelResult(Telegram, Succeeds(Telegram, t))] else [];
    var results := FanOut(config, t);
    assert Configured(Email, config) ==> results[0].channel == Email;
    assert Configured(Telegram, config) ==> results[|email|].channel == Telegram;
    assert Configured(Webhook, config) ==> results[|email| + |telegram|].channel == Webhook;
  }

  /** Channel isolation: which channels are attempted never depends on
      any transport outcome, and a channel's own result depends only on
      its own transport. */
  lemma FanOutIsolation(config: Option<NotificationConfig>, t: Transports, u: Transports)
    ensures |FanOut(config, t)| == |FanOut(config, u)|
    ensures forall i :: 0 <= i < |FanOut(config, t)| ==>
      FanOut(config, t)[i].channel == FanOut(config, u)[i].channel
    ensures t.telegram == u.telegram ==>
      forall i :: 0 <= i < |FanOut(config, t)| && FanOut(config, t)[i].channel == Telegram ==>
        FanOut(config, t)[i] == FanOut(config, u)[i]
  {
  }

  // ---------- history ----------

  const HistoryCap: nat := 100

  /** A saved history entry: timestamp, slot count and the slots. */
  datatype HistoryRecord = HistoryRecord(timestamp: string, totalSlots: nat, slots: seq<ExamSlot>)

  /** Python's `h[-n:]` for `n > 0`. */
  function KeepLast<T>(h: seq<T>, n: nat): (r: seq<T>)
    requires n > 0
    ensures |r| == if |h| <= n then |h| else n
    ensures r == h[|h| - |r|..]
  {
    if |h| <= n then h else h[|h| - n..]
  }

  /** One `append` followed by the `[-100:]` cut. */
  function AppendBounded(h: seq<HistoryRecord>, rec: HistoryRecord): seq<HistoryRecord> {
    KeepLast(h + [rec], HistoryCap)
  }

  /** Saving several records one after another. */
  function AppendEach(h: seq<HistoryRecord>, recs: seq<HistoryRecord>): seq<HistoryRecord>
    decreases |recs|
  {
    if recs == [] then h else AppendEach(AppendBounded(h, recs[0]), recs[1..])
  }

  /** Cutting before appending more and cutting again loses nothing the
      final cut would keep. */
  lemma KeepLastConcat<T>(x: seq<T>, y: seq<T>, n: nat)
    requires n > 0
    ensures KeepLast(KeepLast(x, n) + y, n) == KeepLast(x + y, n)
  {
    if |x| > n {
      var k := |x| - n;
      assert KeepLast(x, n) + y == (x + y)[k..];
      assert (x + y)[k..][|y|..] == (x + y)[k + |y|..];
    }
  }

  /** Any run of saves keeps exactly the last (at most 100) records, in the
      order they were saved, the newest last. */
  lemma {:induction false} AppendEachKeepsLast(h: seq<HistoryRecord>, recs: seq<HistoryRecord>)
    requires |h| <= HistoryCap
    ensures AppendEach(h, recs) == KeepLast(h + recs, HistoryCap)
    decreases |recs|
  {
    if recs != [] {
      var h1 := AppendBounded(h, recs[0]);
      AppendEachKeepsLast(h1, recs[1..]);
      KeepLastConcat(h + [recs[0]], recs[1..], HistoryCap);
      assert h + [recs[0]] + recs[1..] == h + recs;
    }
  }

  /** Saving one more record after a run of saves. */
  lemma {:induction false} AppendEachSnoc(h: seq<HistoryRecord>, recs: seq<HistoryRecord>, rec: HistoryRecord)
    ensures AppendEach(h, recs + [rec]) == AppendBounded(AppendEach(h, recs), rec)
    decreases |recs|
  {
    if recs == [] {
      assert [] + [rec] == [rec];
      assert [rec][1..] == [];
    } else {
      assert (recs + [rec])[0] == recs[0];
      assert (recs + [rec])[1..] == recs[1..] + [rec];
      AppendEachSnoc(AppendBounded(h, recs[0]), recs[1..], rec);
    }
  }

  /** From an empty file, 150 saves leave the last 100 records in order. */
  lemma HundredFiftySaves(recs: seq<HistoryRecord>)
    requires |recs| == 150
    ensures AppendEach([], recs) == recs[50..]
    ensures |AppendEach([], recs)| == 100
  {
    AppendEachKeepsLast([], recs);
    assert [] + recs == recs;
  }

  // ---------- the bot ----------

  /** The slots the cycle before the next one left in `previous`: the last
      fetch's slots, whatever that fetch returned (the main.py rule). */
  function PreviousAfter(start: seq<ExamSlot>, fetches: seq<FetchOutcome>): seq<ExamSlot> {
    if fetches == [] then start else SlotsOf(fetches[|fetches| - 1])
  }

  /** Reference definition of the reports of successive cycles. */
  function RunReports(start: seq<ExamSlot>, fetches: seq<FetchOutcome>): (r: seq<seq<ExamSlot>>)
    ensures |r| == |fetches|
    decreases |fetches|
  {
    if fetches == [] then []
    else
      var front := fetches[..|fetches| - 1];
      RunReports(start, front) + [NewSlots(PreviousAfter(start, front), SlotsOf(fetches[|fetches| - 1]))]
  }

  /** The records the cycles save: one per non-empty report, stamped with
      the time of its cycle, in cycle order. */
  function SavedRecords(reports: seq<seq<ExamSlot>>, timestampAt: nat -> string): (r: seq<HistoryRecord>)
    ensures |r| <= |reports|
    decreases |reports|
  {
    if reports == [] then []
    else
      var k := |reports| - 1;
      SavedRecords(reports[..k], timestampAt)
        + (if reports[k] == [] then [] else [HistoryRecord(timestampAt(k), |reports[k]|, reports[k])])
  }

  /** A cycle that reports nothing saves nothing; one that reports slots
      saves exactly them. */
  lemma SavedRecordsStep(reports: seq<seq<ExamSlot>>, timestampAt: nat -> string, next: seq<ExamSlot>)
    ensures SavedRecords(reports + [next], timestampAt) == SavedRecords(reports, timestampAt)
      + (if next == [] then [] else [HistoryRecord(timestampAt(|reports|), |next|, next)])
  {
    assert (reports + [next])[..|reports|] == reports;
  }

  /** The history after the saves of `reports` grows by the next cycle's
      save, if it makes one. */
  lemma HistoryStep(h0: seq<HistoryRecord>, reports: seq<seq<ExamSlot>>, timestampAt: nat -> string, next: seq<ExamSlot>)
    ensures AppendEach(h0, SavedRecords(reports + [next], timestampAt))
      == if next == [] then AppendEach(h0, SavedRecords(reports, timestampAt))
         else AppendBounded(AppendEach(h0, SavedRecords(reports, timestampAt)), HistoryRecord(timestampAt(|reports|), |next|, next))
  {
    SavedRecordsStep(reports, timestampAt, next);
    if next != [] {
      AppendEachSnoc(h0, SavedRecords(reports, timestampAt), HistoryRecord(timestampAt(|reports|), |next|, next));
    } else {
      assert SavedRecords(reports, timestampAt) + [] == SavedRecords(reports, timestampAt);
    }
  }

  /** `results[k]` is the fan-out of cycle `k`, made only when that cycle
      reported new slots. */
  predicate FannedOut(results: seq<seq<ChannelResult>>, reports: seq<seq<ExamSlot>>,
                      config: Option<NotificationConfig>, transportAt: nat -> Transports) {
    |results| == |reports|
    && forall k :: 0 <= k < |reports| ==> results[k] == if reports[k] == [] then [] else FanOut(config, transportAt(k))
  }

  lemma FannedOutStep(results: seq<seq<ChannelResult>>, reports: seq<seq<ExamSlot>>,
                       config: Option<NotificationConfig>, transportAt: nat -> Transports,
                       next: seq<ExamSlot>, sent: seq<ChannelResult>)
    requires FannedOut(results, reports, config, transportAt)
    requires sent == if next == [] then [] else FanOut(config, transportAt(|reports|))
    ensures FannedOut(results + [sent], reports + [next], config, transportAt)
  {
    forall k | 0 <= k < |reports| + 1
      ensures (results + [sent])[k] == if (reports + [next])[k] == [] then [] else FanOut(config, transportAt(k))
    {
      if k < |reports| {
        assert (results + [sent])[k] == results[k];
        assert (reports + [next])[k] == reports[k];
      }
    }
  }

  /** The last report compares the last fetch with the one before it. */
  lemma RunReportsLast(start: seq<ExamSlot>, fetches: seq<FetchOutcome>)
    requires |fetches| > 0
    ensures RunReports(start, fetches)[|fetches| - 1] ==
      NewSlots(if |fetches| == 1 then start else SlotsOf(fetches[|fetches| - 2]), SlotsOf(fetches[|fetches| - 1]))
  {
    var front := fetches[..|fetches| - 1];
    if |fetches| > 1 {
      assert front[|front| - 1] == fetches[|fetches| - 2];
    }
  }

  /** A further fetch leaves the earlier reports as they were. */
  lemma RunReportsFront(start: seq<ExamSlot>, fetches: seq<FetchOutcome>, k: nat)
    requires k < |fetches| - 1
    ensures RunReports(start, fetches)[k] == RunReports(start, fetches[..|fetches| - 1])[k]
  {
  }

  /** Cycle `k` is compared with cycle `k - 1` only: no memory reaches further back. */
  lemma {:induction false} RunReportsAt(start: seq<ExamSlot>, fetches: seq<FetchOutcome>, k: nat)
    requires k < |fetches|
    ensures RunReports(start, fetches)[k] ==
      NewSlots(if k == 0 then start else SlotsOf(fetches[k - 1]), SlotsOf(fetches[k]))
    decreases |fetches|, 1
  {
    if k == |fetches| - 1 {
      RunReportsLast(start, fetches);
    } else {
      RunReportsAtEarlier(start, fetches, k);
    }
  }

  /** The induction step of `RunReportsAt`, for a report before the last. */
  lemma {:induction false} RunReportsAtEarlier(start: seq<ExamSlot>, fetches: seq<FetchOutcome>, k: nat)
    requires k < |fetches| - 1
    ensures RunReports(start, fetches)[k] ==
      NewSlots(if k == 0 then start else SlotsOf(fetches[k - 1]), SlotsOf(fetches[k]))
    decreases |fetches|, 0
  {
    var front := fetches[..|fetches| - 1];
    RunReportsFront(start, fetches, k);
    RunReportsAt(start, front, k);
    assert front[k] == fetches[k];
    if k > 0 {
      assert front[k - 1] == fetches[k - 1];
    }
  }

  /** A fetch that fails in between empties `previous`, so slots seen before
      the failure are reported again afterwards. */
  lemma ReappearsAfterFailedFetch(ok: FetchOutcome, failed: FetchOutcome)
    requires !(failed.Response? && failed.status == 200)
    ensures |RunReports([], [ok, failed, ok])| == 3
    ensures RunReports([], [ok, failed, ok])[0] == SlotsOf(ok)
    ensures RunReports([], [ok, failed, ok])[1] == []
    ensures RunReports([], [ok, failed, ok])[2] == SlotsOf(ok)
  {
    var fetches := [ok, failed, ok];
    NewSlotsFromNothing(SlotsOf(ok));
    RunReportsAt([], fetches, 0);
    RunReportsAt([], fetches, 1);
    RunReportsAt([], fetches, 2);
  }

  /** One more cycle adds one report: the next fetch against the slots the
      cycles so far left behind, which it then replaces. */
  lemma RunReportsStep(start: seq<ExamSlot>, fetches: seq<FetchOutcome>, i: nat)
    requires i < |fetches|
    ensures RunReports(start, fetches[..i + 1]) ==
      RunReports(start, fetches[..i]) + [NewSlots(PreviousAfter(start, fetches[..i]), SlotsOf(fetches[i]))]
    ensures PreviousAfter(start, fetches[..i + 1]) == SlotsOf(fetches[i])
  {
    assert fetches[..i + 1][..i] == fetches[..i];
  }


  /** Running the same cycle twice reports nothing the second time. */
  lemma SecondIdenticalCycleSilent(start: seq<ExamSlot>, f: FetchOutcome)
    ensures RunReports(start, [f, f])[1] == []
  {
    RunReportsAt(start, [f, f], 1);
    NewSlotsSelf(SlotsOf(f));
  }

  /** The state `monitor_loop` has reached after its first `i` cycles,
      from the memory `start` and the history `h0`: the reports, the
      fan-out results, the memory and the history of the reference run. */
  ghost predicate LoopReached(start: seq<ExamSlot>, h0: seq<HistoryRecord>, fetches: seq<FetchOutcome>, i: nat,
                              config: Option<NotificationConfig>, transportAt: nat -> Transports, timestampAt: nat -> string,
                              reports: seq<seq<ExamSlot>>, results: seq<seq<ChannelResult>>,
                              previous: seq<ExamSlot>, history: seq<HistoryRecord>)
  {
    i <= |fetches| && reports == RunReports(start, fetches[..i]) && previous == PreviousAfter(start, fetches[..i])
    && FannedOut(results, reports, config, transportAt)
    && history == AppendEach(h0, SavedRecords(reports, timestampAt))
  }

  /** One more cycle of `monitor_loop`, on values: the memory, report,
      fan-out and history that cycle `i` produces extend the state reached
      after the cycles before it to the state reached after it. */
  lemma CycleStep(start: seq<ExamSlot>, h0: seq<HistoryRecord>, fetches: seq<FetchOutcome>, i: nat,
                  config: Option<NotificationConfig>, transportAt: nat -> Transports, timestampAt: nat -> string,
                  reports: seq<seq<ExamSlot>>, results: seq<seq<ChannelResult>>,
                  previous: seq<ExamSlot>, history: seq<HistoryRecord>,
                  newSlots: seq<ExamSlot>, sent: seq<ChannelResult>)
    requires LoopReached(start, h0, fetches, i, config, transportAt, timestampAt, reports, results, previous, history)
    requires i < |fetches|
    requires newSlots == NewSlots(previous, SlotsOf(fetches[i]))
    requires sent == if newSlots == [] then [] else FanOut(config, transportAt(i))
    ensures LoopReached(start, h0, fetches, i + 1, config, transportAt, timestampAt, reports + [newSlots], results + [sent],
                        SlotsOf(fetches[i]),
                        if newSlots == [] then history else AppendBounded(history, HistoryRecord(timestampAt(i), |newSlots|, newSlots)))
  {
    RunReportsStep(start, fetches, i);
    HistoryStep(h0, reports, timestampAt, newSlots);
    FannedOutStep(results, reports, config, transportAt, newSlots, sent);
  }

  /** After every cycle the reached state is the whole reference run. */
  lemma LoopDone(start: seq<ExamSlot>, h0: seq<HistoryRecord>, fetches: seq<FetchOutcome>,
                 config: Option<NotificationConfig>, transportAt: nat -> Transports, timestampAt: nat -> string,
                 reports: seq<seq<ExamSlot>>, results: seq<seq<ChannelResult>>,
                 previous: seq<ExamSlot>, history: seq<HistoryRecord>)
    requires LoopReached(start, h0, fetches, |fetches|, config, transportAt, timestampAt, reports, results, previous, history)
    ensures reports == RunReports(start, fetches)
    ensures previous == PreviousAfter(start, fetches)
    ensures FannedOut(results, reports, config, transportAt)
    ensures history == AppendEach(h0, SavedRecords(reports, timestampAt))
  {
    assert fetches[..|fetches|] == fetches;
  }

  class NotificationBot {
    var previousSlots: seq<ExamSlot>
    /** The list held in `slots_history.json`. */
    var history: seq<HistoryRecord>

    constructor ()
      ensures previousSlots == [] && history == []
    {
      previousSlots := [];
      history := [];
    }

    /** `check_available_slots`: a non-200 reply or an exception gives `[]`;
        otherwise the elements that parse, in order. */
    static method CheckAvailableSlots(fetch: FetchOutcome) returns (slots: seq<ExamSlot>)
      ensures slots == SlotsOf(fetch)
    {
      if fetch.FetchRaised? || fetch.status != 200 {
        return [];
      }
      var elements := fetch.elements;
      slots := [];
      var i := 0;
      while i < |elements|
        invariant 0 <= i <= |elements|
        invariant slots == ParsedSlots(elements[..i])
      {
        var p := ParseSlot(elements[i]);
        assert elements[..i + 1][..i] == elements[..i];
        assert ParsedSlots(elements[..i + 1]) == ParsedSlots(elements[..i]) + (if p.Some? then [p.value] else []);
        if p.Some? {
          slots := slots + [p.value];
        }
        i := i + 1;
      }
      assert elements[..i] == elements;
    }

    /** `detect_new_slots`: report the current slots whose key is unseen,
        then replace the stored list wholesale. */
    method DetectNewSlots(current: seq<ExamSlot>) returns (newSlots: seq<ExamSlot>)
      modifies this`previousSlots
      ensures newSlots == NewSlots(old(previousSlots), current)
      ensures previousSlots == current
    {
      newSlots := [];
      var i := 0;
      while i < |current|
        invariant 0 <= i <= |current|
        invariant newSlots == NewSlots(previousSlots, current[..i])
      {
        var slot := current[i];
        var isNew := true;
        var j := 0;
        while j < |previousSlots|
          invariant 0 <= j <= |previousSlots|
          invariant isNew
          invariant forall k :: 0 <= k < j ==> !SameKey(slot, previousSlots[k])
        {
          var prev := previousSlots[j];
          if slot.date == prev.date && slot.hour == prev.hour && slot.location == prev.location {
            isNew := false;
            break;
          }
          j := j + 1;
        }
        assert isNew <==> !KeyIn(slot, previousSlots);
        if isNew {
          newSlots := newSlots + [slot];
        }
        assert current[..i + 1][..i] == current[..i];
        i := i + 1;
      }
      assert current[..i] == current;
      previousSlots := current;
    }

    /** `save_slots_to_file`, the in-memory part: append one record and keep
        the last 100. */
    method SaveSlotsToFile(slots: seq<ExamSlot>, timestamp: string)
      modifies this`history
      ensures history == AppendBounded(old(history), HistoryRecord(timestamp, |slots|, slots))
      ensures |history| <= HistoryCap && history[|history| - 1].slots == slots
    {
      var record := HistoryRecord(timestamp, |slots|, slots);
      var all := history + [record];
      if |all| > HistoryCap {
        all := all[|all| - HistoryCap..];
      }
      history := all;
    }

    /** One pass of `monitor_loop`: fetch, diff, and, when something is new,
        fan out to the configured channels and save the batch. */
    method MonitorCycle(fetch: FetchOutcome, config: Option<NotificationConfig>, t: Transports, timestamp: string)
      returns (newSlots: seq<ExamSlot>, results: seq<ChannelResult>)
      modifies this
      ensures previousSlots == SlotsOf(fetch)
      ensures newSlots == NewSlots(old(previousSlots), SlotsOf(fetch))
      ensures results == if newSlots == [] then [] else FanOut(config, t)
      ensures history == if newSlots == [] then old(history)
                         else AppendBounded(old(history), HistoryRecord(timestamp, |newSlots|, newSlots))
    {
      var current := CheckAvailableSlots(fetch);
      newSlots := DetectNewSlots(current);
      results := [];
      if newSlots != [] {
        results := FanOut(config, t);
        SaveSlotsToFile(newSlots, timestamp);
      }
    }

    /** The first cycles of `monitor_loop` (the loop itself never ends).
        Cycle `k` reads the clock as `timestampAt(k)` and meets the
        channels' transports `transportAt(k)`; `results[k]` is what its
        fan-out reported. */
    method MonitorLoop(fetches: seq<FetchOutcome>, config: Option<NotificationConfig>,
                       transportAt: nat -> Transports, timestampAt: nat -> string)
      returns (reports: seq<seq<ExamSlot>>, results: seq<seq<ChannelResult>>)
      modifies this
      ensures reports == RunReports(old(previousSlots), fetches)
      ensures previousSlots == PreviousAfter(old(previousSlots), fetches)
      ensures FannedOut(results, reports, config, transportAt)
      ensures history == AppendEach(old(history), SavedRecords(reports, timestampAt))
    {
      ghost var start := previousSlots;
      ghost var startHistory := history;
      reports, results := [], [];
      var i := 0;
      while i < |fetches|
        invariant LoopReached(start, startHistory, fetches, i, config, transportAt, timestampAt,
                              reports, results, previousSlots, history)
      {
        ghost var previous, saved := previousSlots, history;
        var newSlots, sent := MonitorCycle(fetches[i], config, transportAt(i), timestampAt(i));
        CycleStep(start, startHistory, fetches, i, config, transportAt, timestampAt,
                  reports, results, previous, saved, newSlots, sent);
        reports := reports + [newSlots];
        results := results + [sent];
        i := i + 1;
      }
      LoopDone(start, startHistory, fetches, config, transportAt, timestampAt, reports, results, previousSlots, history);
    }
  }
}
