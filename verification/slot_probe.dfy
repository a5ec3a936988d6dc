/** Slot probing and change detection of the three browser bots
    (permis_bot.py, hybride.py, permis_bot_copy.py). A slot there is the
    visible text of a page element; the page is given as the outcome of
    each selector of the bot's list, in list order. */
module SlotProbe {
  import opened Text

  /** Only the first ten matched elements are read (`elements[:10]`). */
  const MaxSlots: nat := 10

  /** Reading an element's text: it raises, or yields a string. */
  datatype TextRead = TextRaised | Text(text: string)

  /** One selector of the list: the query raises, or returns the matched
      elements (each given by what reading its text gives). */
  datatype SelectorProbe = ProbeRaised | Matched(elements: seq<TextRead>)

  /** A selector whose query returns at least one element. */
  predicate Hit(p: SelectorProbe) {
    p.Matched? && p.elements != []
  }

  /** The selector the probing loop stops at: the first hit. */
  function FirstHit(probes: seq<SelectorProbe>): (r: Option<nat>)
    ensures r.Some? ==> r.value < |probes| && Hit(probes[r.value])
    ensures r.Some? ==> forall j :: 0 <= j < r.value ==> !Hit(probes[j])
    ensures r.None? <==> forall j :: 0 <= j < |probes| ==> !Hit(probes[j])
    decreases |probes|
  {
    if probes == [] then None
    else if Hit(probes[0]) then Some(0)
    else
      var r := FirstHit(probes[1..]);
      assert forall j :: 1 <= j < |probes| ==> probes[j] == probes[1..][j - 1];
      if r.Some? then Some(r.value + 1) else None
  }

  /** The probing loop of the Selenium bots stops at its first hit. */
  lemma FirstHitAt(probes: seq<SelectorProbe>, i: nat)
    requires i < |probes| && Hit(probes[i])
    requires forall j :: 0 <= j < i ==> !Hit(probes[j])
    ensures FirstHit(probes) == Some(i)
  {
  }

  /** `elements[:10]` */
  function FirstTen(elements: seq<TextRead>): (r: seq<TextRead>)
    ensures |r| <= MaxSlots && r <= elements
    ensures |elements| <= MaxSlots ==> r == elements
  {
    if |elements| <= MaxSlots then elements else elements[..MaxSlots]
  }

  /** The texts kept by the Selenium bots: readable and non-empty, in
      element order; an element whose text raises is skipped. */
  function ReadableTexts(elements: seq<TextRead>): (r: seq<string>)
    ensures |r| <= |elements|
    ensures forall i :: 0 <= i < |r| ==> r[i] != []
    decreases |elements|
  {
    if elements == [] then []
    else
      var front := ReadableTexts(elements[..|elements| - 1]);
      var last := elements[|elements| - 1];
      if last.Text? && last.text != [] then front + [last.text] else front
  }

  /** A text is kept exactly when some element reads to it. */
  lemma {:induction false} ReadableTextsMembers(elements: seq<TextRead>, t: string)
    ensures t in ReadableTexts(elements) <==> t != [] && Text(t) in elements
    decreases |elements|
  {
    if elements != [] {
      var front := elements[..|elements| - 1];
      ReadableTextsMembers(front, t);
      assert elements == front + [elements[|elements| - 1]];
    }
  }

  /** The read splits over concatenation: the kept texts stay in element
      order, one per readable non-empty element. */
  lemma {:induction false} ReadableTextsAppend(a: seq<TextRead>, b: seq<TextRead>)
    ensures ReadableTexts(a + b) == ReadableTexts(a) + ReadableTexts(b)
    decreases |b|
  {
    if b != [] {
      var front := b[..|b| - 1];
      ReadableTextsAppend(a, front);
      assert (a + b)[..|a + b| - 1] == a + front;
      assert (a + b)[|a + b| - 1] == b[|b| - 1];
    } else {
      assert a + b == a;
    }
  }

  /** The slots of hybride.py and permis_bot_copy.py: the texts of the
      first ten elements of the first selector that matches anything, or
      nothing when no selector matches. */
  function SeleniumSlots(probes: seq<SelectorProbe>): seq<string>
    decreases |probes|
  {
    if probes == [] then []
    else if Hit(probes[0]) then ReadableTexts(FirstTen(probes[0].elements))
    else SeleniumSlots(probes[1..])
  }

  /** The same slots, read off the selector `FirstHit` names. */
  lemma {:induction false} SeleniumSlotsAtFirstHit(probes: seq<SelectorProbe>)
    ensures FirstHit(probes).None? ==> SeleniumSlots(probes) == []
    ensures FirstHit(probes).Some? ==>
      SeleniumSlots(probes) == ReadableTexts(FirstTen(probes[FirstHit(probes).value].elements))
    decreases |probes|
  {
    if probes != [] && !Hit(probes[0]) {
      SeleniumSlotsAtFirstHit(probes[1..]);
      var r := FirstHit(probes[1..]);
      if r.Some? {
        assert probes[1..][r.value] == probes[r.value + 1];
      }
    }
  }

  /** At most ten non-empty texts, all read from that one selector. */
  lemma SeleniumSlotsShape(probes: seq<SelectorProbe>)
    ensures |SeleniumSlots(probes)| <= MaxSlots
    ensures forall i :: 0 <= i < |SeleniumSlots(probes)| ==> SeleniumSlots(probes)[i] != []
    ensures FirstHit(probes).None? ==> SeleniumSlots(probes) == []
    ensures FirstHit(probes).Some? ==> forall t :: t in SeleniumSlots(probes) ==>
      Text(t) in probes[FirstHit(probes).value].elements
  {
    SeleniumSlotsAtFirstHit(probes);
    match FirstHit(probes)
    case None =>
    case Some(i) =>
      forall t | t in SeleniumSlots(probes) ensures Text(t) in probes[i].elements {
        ReadableTextsMembers(FirstTen(probes[i].elements), t);
      }
  }

  /** The selector loop of the Selenium bots: the elements of the first
      selector that finds any, or none. */
  method FindFirstHit(probes: seq<SelectorProbe>) returns (elements: seq<TextRead>)
    ensures FirstHit(probes).None? <==> elements == []
    ensures FirstHit(probes).Some? ==> elements == probes[FirstHit(probes).value].elements
    ensures SeleniumSlots(probes) == ReadableTexts(FirstTen(elements))
  {
    SeleniumSlotsAtFirstHit(probes);
    elements := [];
    var i := 0;
    while i < |probes|
      invariant 0 <= i <= |probes|
      invariant forall j :: 0 <= j < i ==> !Hit(probes[j])
    {
      if probes[i].Matched? && probes[i].elements != [] {
        FirstHitAt(probes, i);
        return probes[i].elements;
      }
      i := i + 1;
    }
  }

  /** The text loop of the Selenium bots over the first ten elements. */
  method ReadSlotTexts(firstTen: seq<TextRead>) returns (slots: seq<string>)
    ensures slots == ReadableTexts(firstTen)
  {
    slots := [];
    var j := 0;
    while j < |firstTen|
      invariant 0 <= j <= |firstTen|
      invariant slots == ReadableTexts(firstTen[..j])
    {
      assert firstTen[..j + 1][..j] == firstTen[..j];
      var read := firstTen[j];
      if read.Text? && read.text != [] {
        slots := slots + [read.text];
      }
      j := j + 1;
    }
    assert firstTen[..j] == firstTen;
  }

  /** permis_bot.py reads the texts inside the `try` that also holds the
      `break`: the non-empty texts read before the first element whose text
      raises. */
  function TextsBeforeRaise(elements: seq<TextRead>): (r: seq<string>)
    ensures |r| <= |elements|
    decreases |elements|
  {
    if elements == [] then []
    else match elements[0]
      case TextRaised => []
      case Text(t) => (if t != [] then [t] else []) + TextsBeforeRaise(elements[1..])
  }

  predicate AllReadable(elements: seq<TextRead>) {
    forall i :: 0 <= i < |elements| ==> elements[i].Text?
  }

  /** Reading one more element in front. */
  lemma ReadableTextsCons(e: TextRead, s: seq<TextRead>)
    ensures ReadableTexts([e] + s) == (if e.Text? && e.text != [] then [e.text] else []) + ReadableTexts(s)
  {
    ReadableTextsAppend([e], s);
    assert [e][..0] == [];
  }

  /** The texts permis_bot.py keeps are the Selenium read of the elements
      before the first one whose text raises (all of them when none does). */
  lemma {:induction false} TextsBeforeRaiseIsPrefix(elements: seq<TextRead>, k: nat)
    requires k <= |elements| && forall i :: 0 <= i < k ==> elements[i].Text?
    requires k < |elements| ==> elements[k].TextRaised?
    ensures TextsBeforeRaise(elements) == ReadableTexts(elements[..k])
    decreases k
  {
    if k == 0 {
      assert elements[..k] == [];
    } else {
      var e := elements[0];
      var rest := elements[1..];
      assert forall i :: 0 <= i < k - 1 ==> rest[i] == elements[i + 1];
      TextsBeforeRaiseIsPrefix(rest, k - 1);
      assert TextsBeforeRaise(elements) == (if e.text != [] then [e.text] else []) + TextsBeforeRaise(rest);
      assert elements[..k] == [e] + rest[..k - 1];
      ReadableTextsCons(e, rest[..k - 1]);
    }
  }

  /** One step of `TextsBeforeRaise` from index `j`. */
  lemma TextsBeforeRaiseFrom(elements: seq<TextRead>, j: nat)
    requires j < |elements|
    ensures elements[j].TextRaised? ==> TextsBeforeRaise(elements[j..]) == []
    ensures elements[j].Text? ==>
      TextsBeforeRaise(elements[j..])
        == (if elements[j].text != [] then [elements[j].text] else []) + TextsBeforeRaise(elements[j + 1..])
  {
    assert elements[j..][0] == elements[j] && elements[j..][1..] == elements[j + 1..];
  }

  /** The slots of permis_bot.py: the first selector that matches anything
      ends the probe, unless reading one of its texts raises, in which case
      the texts read so far stay and the next selector is probed. */
  function PlaywrightSlots(probes: seq<SelectorProbe>): seq<string>
    decreases |probes|
  {
    if probes == [] then []
    else if !Hit(probes[0]) then PlaywrightSlots(probes[1..])
    else
      var firstTen := FirstTen(probes[0].elements);
      if AllReadable(firstTen) then TextsBeforeRaise(firstTen)
      else TextsBeforeRaise(firstTen) + PlaywrightSlots(probes[1..])
  }

  lemma {:induction false} TextsBeforeRaiseReadable(elements: seq<TextRead>)
    requires AllReadable(elements)
    ensures TextsBeforeRaise(elements) == ReadableTexts(elements)
    decreases |elements|
  {
    if elements != [] {
      TextsBeforeRaiseReadable(elements[1..]);
      SplitEnds(elements);
    }
  }

  /** Peeling the first and the last element commute. */
  lemma {:induction false} SplitEnds(elements: seq<TextRead>)
    requires elements != [] && AllReadable(elements)
    ensures ReadableTexts(elements)
      == (if elements[0].text != [] then [elements[0].text] else []) + ReadableTexts(elements[1..])
    decreases |elements|
  {
    var n := |elements| - 1;
    if n == 0 {
      assert elements[1..] == [];
      assert ReadableTexts(elements[..0]) == [];
    } else {
      SplitEnds(elements[..n]);
      assert elements[..n][1..] == elements[1..][..n - 1];
      assert elements[..n][0] == elements[0];
      assert elements[1..][n - 1] == elements[n];
    }
  }

  /** When every text the first hit offers can be read, both probing rules
      give the same slots. */
  lemma {:induction false} PlaywrightAgreesWhenReadable(probes: seq<SelectorProbe>)
    requires forall i :: 0 <= i < |probes| && Hit(probes[i]) ==> AllReadable(FirstTen(probes[i].elements))
    ensures PlaywrightSlots(probes) == SeleniumSlots(probes)
    decreases |probes|
  {
    if probes != [] {
      if Hit(probes[0]) {
        TextsBeforeRaiseReadable(FirstTen(probes[0].elements));
      } else {
        assert forall i :: 1 <= i < |probes| ==> probes[1..][i - 1] == probes[i];
        PlaywrightAgreesWhenReadable(probes[1..]);
      }
    }
  }

  /** The Playwright rule keeps at most ten texts per selector probed. */
  lemma {:induction false} PlaywrightSlotsBound(probes: seq<SelectorProbe>)
    ensures |PlaywrightSlots(probes)| <= MaxSlots * |probes|
    decreases |probes|
  {
    if probes != [] {
      PlaywrightSlotsBound(probes[1..]);
    }
  }

  /** `[s for s in current_slots if s not in self.previous_slots]` */
  function FreshTexts(current: seq<string>, previous: seq<string>): (r: seq<string>)
    ensures |r| <= |current|
    decreases |current|
  {
    if current == [] then []
    else
      var front := FreshTexts(current[..|current| - 1], previous);
      var last := current[|current| - 1];
      if last !in previous then front + [last] else front
  }

  /** A text is reported exactly when it is current and was not seen in the
      previous list (plain string equality). */
  lemma {:induction false} FreshTextsMembers(current: seq<string>, previous: seq<string>, t: string)
    ensures t in FreshTexts(current, previous) <==> t in current && t !in previous
    decreases |current|
  {
    if current != [] {
      var front := current[..|current| - 1];
      FreshTextsMembers(front, previous, t);
      assert current == front + [current[|current| - 1]];
    }
  }

  /** The comprehension splits over concatenation: new texts keep the
      order of `current`, and a text listed twice is reported twice. */
  lemma {:induction false} FreshTextsAppend(a: seq<string>, b: seq<string>, previous: seq<string>)
    ensures FreshTexts(a + b, previous) == FreshTexts(a, previous) + FreshTexts(b, previous)
    decreases |b|
  {
    if b != [] {
      var front := b[..|b| - 1];
      FreshTextsAppend(a, front, previous);
      assert (a + b)[..|a + b| - 1] == a + front;
      assert (a + b)[|a + b| - 1] == b[|b| - 1];
    } else {
      assert a + b == a;
    }
  }

  /** Against an empty memory every current text is new. */
  lemma {:induction false} FreshTextsFromNothing(current: seq<string>)
    ensures FreshTexts(current, []) == current
    decreases |current|
  {
    if current != [] {
      FreshTextsFromNothing(current[..|current| - 1]);
      assert current == current[..|current| - 1] + [current[|current| - 1]];
    }
  }

  /** `self.previous_slots = current_slots` runs only when the cycle found
      something. */
  function NextPrevious(previous: seq<string>, current: seq<string>): seq<string> {
    if current != [] then current else previous
  }

  /** The reports of a run of these monitors, one per cycle, given what
      each cycle probed. */
  function TextRunReports(start: seq<string>, currents: seq<seq<string>>): (r: seq<seq<string>>)
    ensures |r| == |currents|
    decreases |currents|
  {
    if currents == [] then []
    else
      var front := currents[..|currents| - 1];
      TextRunReports(start, front) + [FreshTexts(currents[|currents| - 1], TextMemoryAfter(start, front))]
  }

  /** `previous_slots` after a run. */
  function TextMemoryAfter(start: seq<string>, currents: seq<seq<string>>): seq<string>
    decreases |currents|
  {
    if currents == [] then start
    else NextPrevious(TextMemoryAfter(start, currents[..|currents| - 1]), currents[|currents| - 1])
  }

  /** One more cycle appends one report and updates the memory once. */
  lemma TextRunStep(start: seq<string>, currents: seq<seq<string>>, current: seq<string>)
    ensures TextRunReports(start, currents + [current])
      == TextRunReports(start, currents) + [FreshTexts(current, TextMemoryAfter(start, currents))]
    ensures TextMemoryAfter(start, currents + [current]) == NextPrevious(TextMemoryAfter(start, currents), current)
  {
    assert (currents + [current])[..|currents|] == currents;
  }

  /** Unlike main.py, a slot that disappears for one cycle and comes back
      is not reported a second time: the empty cycle leaves the memory as
      it was. */
  lemma VanishedTextNotReportedAgain(x: string)
    requires x != []
    ensures TextRunReports([], [[x], [], [x]]) == [[x], [], []]
  {
    var cs: seq<seq<string>> := [[x], [], [x]];
    assert cs[..2] == [[x], []];
    assert cs[..2][..1] == [[x]];
    assert cs[..2][..1][..0] == [];
    FreshTextsFromNothing([x]);
    assert TextRunReports([], cs[..1]) == [[x]];
    assert TextRunReports([], cs[..2]) == [[x], []];
    assert TextMemoryAfter([], cs[..2]) == [x];
    assert FreshTexts([x], [x]) == [];
    assert TextRunReports([], cs) == TextRunReports([], cs[..2]) + [FreshTexts([x], TextMemoryAfter([], cs[..2]))];
  }

  /** One monitor iteration: the selector outcomes, then whether reloading
      the page at the end of the iteration raises. */
  datatype Cycle = Cycle(probes: seq<SelectorProbe>, refreshRaises: bool)

  /** The slot texts each cycle finds, by the Playwright rule. */
  function PlaywrightCurrents(cycles: seq<Cycle>): (r: seq<seq<string>>)
    ensures |r| == |cycles|
    ensures forall i :: 0 <= i < |cycles| ==> r[i] == PlaywrightSlots(cycles[i].probes)
  {
    seq(|cycles|, i requires 0 <= i < |cycles| => PlaywrightSlots(cycles[i].probes))
  }

  /** The slot texts each cycle finds, by the Selenium rule. */
  function SeleniumCurrents(cycles: seq<Cycle>): (r: seq<seq<string>>)
    ensures |r| == |cycles|
    ensures forall i :: 0 <= i < |cycles| ==> r[i] == SeleniumSlots(cycles[i].probes)
  {
    seq(|cycles|, i requires 0 <= i < |cycles| => SeleniumSlots(cycles[i].probes))
  }

  lemma CurrentsStep(cycles: seq<Cycle>, i: nat)
    requires i < |cycles|
    ensures PlaywrightCurrents(cycles[..i + 1]) == PlaywrightCurrents(cycles[..i]) + [PlaywrightSlots(cycles[i].probes)]
    ensures SeleniumCurrents(cycles[..i + 1]) == SeleniumCurrents(cycles[..i]) + [SeleniumSlots(cycles[i].probes)]
  {
  }

  /** The reports and the memory a Playwright monitor has after the first
      `i` cycles, from the memory `start`. */
  ghost predicate PlaywrightRunReached(start: seq<string>, cycles: seq<Cycle>, i: nat, reports: seq<seq<string>>, memory: seq<string>) {
    i <= |cycles|
    && reports == TextRunReports(start, PlaywrightCurrents(cycles[..i]))
    && memory == TextMemoryAfter(start, PlaywrightCurrents(cycles[..i]))
  }

  /** A Playwright cycle that reports its fresh texts and updates the memory
      moves the run one cycle on. */
  lemma PlaywrightRunAdvance(start: seq<string>, cycles: seq<Cycle>, i: nat, reports: seq<seq<string>>, memory: seq<string>, newSlots: seq<string>)
    requires PlaywrightRunReached(start, cycles, i, reports, memory) && i < |cycles|
    requires newSlots == FreshTexts(PlaywrightSlots(cycles[i].probes), memory)
    ensures PlaywrightRunReached(start, cycles, i + 1, reports + [newSlots], NextPrevious(memory, PlaywrightSlots(cycles[i].probes)))
  {
    CurrentsStep(cycles, i);
    TextRunStep(start, PlaywrightCurrents(cycles[..i]), PlaywrightSlots(cycles[i].probes));
  }

  /** The reports and the memory a Selenium monitor has after the first `i`
      cycles, from the memory `start`. */
  ghost predicate SeleniumRunReached(start: seq<string>, cycles: seq<Cycle>, i: nat, reports: seq<seq<string>>, memory: seq<string>) {
    i <= |cycles|
    && reports == TextRunReports(start, SeleniumCurrents(cycles[..i]))
    && memory == TextMemoryAfter(start, SeleniumCurrents(cycles[..i]))
  }

  /** A Selenium cycle that reports its fresh texts and updates the memory
      moves the run one cycle on. */
  lemma SeleniumRunAdvance(start: seq<string>, cycles: seq<Cycle>, i: nat, reports: seq<seq<string>>, memory: seq<string>, newSlots: seq<string>)
    requires SeleniumRunReached(start, cycles, i, reports, memory) && i < |cycles|
    requires newSlots == FreshTexts(SeleniumSlots(cycles[i].probes), memory)
    ensures SeleniumRunReached(start, cycles, i + 1, reports + [newSlots], NextPrevious(memory, SeleniumSlots(cycles[i].probes)))
  {
    CurrentsStep(cycles, i);
    TextRunStep(start, SeleniumCurrents(cycles[..i]), SeleniumSlots(cycles[i].probes));
  }

  /** The number of cycles run by a monitor loop that has no handler inside
      the loop: it leaves at the first reload that raises, or runs every
      cycle until the user interrupts it. */
  function CyclesRun(cycles: seq<Cycle>): (n: nat)
    ensures n <= |cycles|
    ensures forall i :: 0 <= i < n - 1 ==> !cycles[i].refreshRaises
    ensures n < |cycles| ==> n > 0 && cycles[n - 1].refreshRaises
    decreases |cycles|
  {
    if cycles == [] then 0
    else if cycles[0].refreshRaises then 1
    else
      var n := CyclesRun(cycles[1..]);
      n + 1
  }

  /** A loop that stops after the first raising reload has run `CyclesRun`
      cycles. */
  lemma RunLengthIsFirstRaise(cycles: seq<Cycle>, n: nat)
    requires n <= |cycles|
    requires forall k :: 0 <= k < n - 1 ==> !cycles[k].refreshRaises
    requires n < |cycles| ==> n > 0 && cycles[n - 1].refreshRaises
    ensures CyclesRun(cycles) == n
  {
  }
}
