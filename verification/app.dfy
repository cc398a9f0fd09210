/** App.tsx: the wizard's session state, the handlers the step components
    call, the navigation callbacks, and which step component is rendered.
    Each handler is one atomic transition on an immutable state. */
module App {
  import opened Js
  import opened JsString
  import opened Types
  import StepOne
  import StepTwo
  import StepThree
  import GeminiService
  import Catalog

  datatype State = State(
    step: Step,
    selectedPerson: Option<ImageAsset>,
    selectedGarment: Option<ImageAsset>,
    resultUrl: Option<string>,
    customGarments: seq<ImageAsset>,
    history: seq<HistoryEntry>)

  /** The two `Date.now()` readings `handleResultGenerated` makes: one
      names the history entry, the other stamps it. Nothing makes them
      equal or distinct from earlier readings. */
  datatype Clock = Clock(idMillis: nat, timestampMillis: nat)

  /** The wizard's defining property: the result step is only ever reached
      with both a person and a garment selected. */
  predicate ResultStepHasSelections(s: State) {
    s.step == GenerateResult ==> s.selectedPerson.Some? && s.selectedGarment.Some?
  }

  /** The inductive form of it: past the first step a person is selected,
      and on the result step a garment too. */
  predicate Inv(s: State) {
    && (s.step != SelectPerson ==> s.selectedPerson.Some?)
    && (s.step == GenerateResult ==> s.selectedGarment.Some?)
  }

  /** The state on first render. */
  function Initial(): (s: State)
    ensures s.step == SelectPerson
    ensures s.selectedPerson.None? && s.selectedGarment.None? && s.resultUrl.None?
    ensures s.customGarments == [] && s.history == []
    ensures Inv(s)
  {
    State(SelectPerson, None, None, None, [], [])
  }

  // ---------------------------------------------------------------------
  // Handlers

  /** `handlePersonSelect`: only the person changes; in particular an
      earlier result is not cleared. */
  function HandlePersonSelect(s: State, asset: ImageAsset): (r: State)
    ensures r.selectedPerson == Some(asset)
    ensures r.step == s.step && r.selectedGarment == s.selectedGarment && r.resultUrl == s.resultUrl
    ensures r.customGarments == s.customGarments && r.history == s.history
  {
    s.(selectedPerson := Some(asset))
  }

  /** `handleGarmentSelect`: only the garment changes; an earlier result is
      not cleared. */
  function HandleGarmentSelect(s: State, asset: ImageAsset): (r: State)
    ensures r.selectedGarment == Some(asset)
    ensures r.step == s.step && r.selectedPerson == s.selectedPerson && r.resultUrl == s.resultUrl
    ensures r.customGarments == s.customGarments && r.history == s.history
  {
    s.(selectedGarment := Some(asset))
  }

  /** `handleAddCustomGarment`: the asset goes in front of the custom
      garments, whose old order follows it. */
  function HandleAddCustomGarment(s: State, asset: ImageAsset): (r: State)
    ensures |r.customGarments| == |s.customGarments| + 1
    ensures r.customGarments[0] == asset && r.customGarments[1..] == s.customGarments
    ensures r.step == s.step && r.selectedPerson == s.selectedPerson
    ensures r.selectedGarment == s.selectedGarment && r.resultUrl == s.resultUrl
    ensures r.history == s.history
  {
    s.(customGarments := [asset] + s.customGarments)
  }

  /** The history entry recorded for a result on the current selections. */
  function EntryFor(person: ImageAsset, garment: ImageAsset, url: string, clock: Clock): HistoryEntry {
    HistoryEntry(Decimal(clock.idMillis), person.url, garment.url, url, clock.timestampMillis)
  }

  /** `handleResultGenerated`: the result is stored, and when both
      selections are present exactly one entry snapshotting them goes in
      front of the history; otherwise the history is untouched. */
  function HandleResultGenerated(s: State, url: string, clock: Clock): (r: State)
    ensures r.resultUrl == Some(url)
    ensures s.selectedPerson.Some? && s.selectedGarment.Some? ==>
              && |r.history| == |s.history| + 1
              && r.history[1..] == s.history
              && r.history[0].personUrl == s.selectedPerson.value.url
              && r.history[0].garmentUrl == s.selectedGarment.value.url
              && r.history[0].resultUrl == url
              && r.history[0].id == Decimal(clock.idMillis)
              && r.history[0].timestamp == clock.timestampMillis
    ensures !(s.selectedPerson.Some? && s.selectedGarment.Some?) ==> r.history == s.history
    ensures r.step == s.step && r.selectedPerson == s.selectedPerson
    ensures r.selectedGarment == s.selectedGarment && r.customGarments == s.customGarments
  {
    var withResult := s.(resultUrl := Some(url));
    if s.selectedPerson.Some? && s.selectedGarment.Some? then
      var entry := EntryFor(s.selectedPerson.value, s.selectedGarment.value, url, clock);
      withResult.(history := [entry] + s.history)
    else withResult
  }

  /** `handleRestart`: back to the first step with nothing selected and no
      result; custom garments and history survive. */
  function HandleRestart(s: State): (r: State)
    ensures r.step == SelectPerson
    ensures r.selectedPerson.None? && r.selectedGarment.None? && r.resultUrl.None?
    ensures r.customGarments == s.customGarments && r.history == s.history
    ensures Inv(r)
  {
    State(SelectPerson, None, None, None, s.customGarments, s.history)
  }

  /** The navigation callbacks `() => setStep(target)`: only the step
      changes. */
  function GoTo(s: State, target: Step): (r: State)
    ensures r.step == target
    ensures r.selectedPerson == s.selectedPerson && r.selectedGarment == s.selectedGarment
    ensures r.resultUrl == s.resultUrl
    ensures r.customGarments == s.customGarments && r.history == s.history
  {
    s.(step := target)
  }

  // ---------------------------------------------------------------------
  // Rendering

  /** `selectedPerson?.id || null`, the id handed to the first step. */
  function PersonIdProp(s: State): (id: Option<string>)
    ensures Truthy(id) <==> s.selectedPerson.Some? && s.selectedPerson.value.id != ""
  {
    match s.selectedPerson
    case None => None
    case Some(p) => OrNull(p.id)
  }

  /** `selectedGarment?.id || null`, the id handed to the second step. */
  function GarmentIdProp(s: State): (id: Option<string>)
    ensures Truthy(id) <==> s.selectedGarment.Some? && s.selectedGarment.value.id != ""
  {
    match s.selectedGarment
    case None => None
    case Some(g) => OrNull(g.id)
  }

  /** Which step component is on screen. */
  datatype Screen = PersonScreen | GarmentScreen | ResultScreen(props: StepThree.Props) | NoScreen

  /** The three guarded renders: the result step needs both selections on
      top of the step number, and receives their URLs and the result. */
  function CurrentScreen(s: State): (screen: Screen)
    ensures screen == PersonScreen <==> s.step == SelectPerson
    ensures screen == GarmentScreen <==> s.step == SelectGarment
    ensures screen.ResultScreen? <==>
              s.step == GenerateResult && s.selectedPerson.Some? && s.selectedGarment.Some?
    ensures screen.ResultScreen? ==>
              screen.props == StepThree.Props(s.selectedPerson.value.url, s.selectedGarment.value.url, s.resultUrl)
  {
    match s.step
    case SelectPerson => PersonScreen
    case SelectGarment => GarmentScreen
    case GenerateResult =>
      if s.selectedPerson.Some? && s.selectedGarment.Some? then
        ResultScreen(StepThree.Props(s.selectedPerson.value.url, s.selectedGarment.value.url, s.resultUrl))
      else NoScreen
  }

  /** Under the invariant the result step has both selections, so some
      step component is always on screen. */
  lemma InvariantKeepsAScreen(s: State)
    requires Inv(s)
    ensures ResultStepHasSelections(s)
    ensures CurrentScreen(s) != NoScreen
  {
  }

  // ---------------------------------------------------------------------
  // Events: what the rendered step component can make happen

  datatype Event =
    | PersonChosen(asset: ImageAsset)          // StepOne onSelect
    | PersonNext                               // StepOne onNext
    | GarmentChosen(asset: ImageAsset)         // StepTwo onSelect
    | GarmentAdded(asset: ImageAsset)          // StepTwo onAddCustomGarment
    | GarmentNext                              // StepTwo onNext
    | GarmentBack                              // StepTwo onBack
    | ResultGenerated(url: string, clock: Clock) // StepThree onResultGenerated
    | ResultBack                               // StepThree onBack
    | Restarted                                // StepThree onRestart

  /** An event can happen when its component is on screen and, for the Next
      buttons, when the button is enabled. */
  predicate Enabled(s: State, e: Event) {
    match e
    case PersonChosen(_) => CurrentScreen(s) == PersonScreen
    case PersonNext => CurrentScreen(s) == PersonScreen && StepOne.NextEnabled(PersonIdProp(s))
    case GarmentChosen(_) => CurrentScreen(s) == GarmentScreen
    case GarmentAdded(_) => CurrentScreen(s) == GarmentScreen
    case GarmentNext => CurrentScreen(s) == GarmentScreen && StepTwo.NextEnabled(GarmentIdProp(s))
    case GarmentBack => CurrentScreen(s) == GarmentScreen
    case ResultGenerated(_, _) => CurrentScreen(s).ResultScreen?
    case ResultBack => CurrentScreen(s).ResultScreen?
    case Restarted => CurrentScreen(s).ResultScreen?
  }

  /** The handler each event runs. */
  function Apply(s: State, e: Event): State {
    match e
    case PersonChosen(a) => HandlePersonSelect(s, a)
    case PersonNext => GoTo(s, SelectGarment)
    case GarmentChosen(a) => HandleGarmentSelect(s, a)
    case GarmentAdded(a) => HandleAddCustomGarment(s, a)
    case GarmentNext => GoTo(s, GenerateResult)
    case GarmentBack => GoTo(s, SelectPerson)
    case ResultGenerated(url, clock) => HandleResultGenerated(s, url, clock)
    case ResultBack => GoTo(s, SelectGarment)
    case Restarted => HandleRestart(s)
  }

  /** Each Next button is enabled exactly when its step is on screen and its
      selection is present (with the non-empty id every preset, upload and
      generated asset has). */
  lemma NextEnabledIffSelected(s: State)
    ensures Enabled(s, PersonNext) <==>
              s.step == SelectPerson && s.selectedPerson.Some? && s.selectedPerson.value.id != ""
    ensures Enabled(s, GarmentNext) <==>
              s.step == SelectGarment && s.selectedGarment.Some? && s.selectedGarment.value.id != ""
  {
  }

  /** Every enabled event keeps the invariant, and only restart clears a
      selection. */
  lemma ApplyPreservesInv(s: State, e: Event)
    requires Inv(s) && Enabled(s, e)
    ensures Inv(Apply(s, e))
    ensures !e.Restarted? && s.selectedPerson.Some? ==> Apply(s, e).selectedPerson.Some?
    ensures !e.Restarted? && s.selectedGarment.Some? ==> Apply(s, e).selectedGarment.Some?
  {
  }

  /** The Next button of the second step is what keeps the invariant: the
      same transition without it reaches the result step with no garment,
      where nothing is rendered. */
  lemma UnguardedNextBreaksInvariant()
    ensures var s := GoTo(HandlePersonSelect(Initial(), ImageAsset("p1", "u", None)), SelectGarment);
            && Inv(s) && !Enabled(s, GarmentNext)
            && !Inv(GoTo(s, GenerateResult))
            && CurrentScreen(GoTo(s, GenerateResult)) == NoScreen
  {
  }

  function RunEvents(s: State, events: seq<Event>): State
    decreases |events|
  {
    if |events| == 0 then s else RunEvents(Apply(s, events[0]), events[1..])
  }

  predicate AllEnabled(s: State, events: seq<Event>)
    decreases |events|
  {
    |events| == 0 || (Enabled(s, events[0]) && AllEnabled(Apply(s, events[0]), events[1..]))
  }

  /** From any state satisfying it, every sequence of enabled events keeps
      the invariant; in particular every session started from `Initial`. */
  lemma {:induction false} RunPreservesInv(s: State, events: seq<Event>)
    requires Inv(s) && AllEnabled(s, events)
    ensures Inv(RunEvents(s, events))
    decreases |events|
  {
    if |events| > 0 {
      ApplyPreservesInv(s, events[0]);
      RunPreservesInv(Apply(s, events[0]), events[1..]);
    }
  }

  /** Custom garments and history are never shortened by any event: the
      custom list only ever gains a head, the history too. */
  lemma {:induction false} RunKeepsData(s: State, events: seq<Event>)
    ensures |RunEvents(s, events).customGarments| >= |s.customGarments|
    ensures |RunEvents(s, events).history| >= |s.history|
    ensures s.history <= RunEvents(s, events).history[|RunEvents(s, events).history| - |s.history|..]
    decreases |events|
  {
    if |events| > 0 {
      var next := Apply(s, events[0]);
      assert next.history[|next.history| - |s.history|..] == s.history;
      RunKeepsData(next, events[1..]);
      var r := RunEvents(s, events);
      assert r.history[|r.history| - |s.history|..] == r.history[|r.history| - |next.history|..][|next.history| - |s.history|..];
    }
  }

  // ---------------------------------------------------------------------
  // Callbacks from the step components

  /** The event a step component's callback amounts to on the given screen;
      `None` for a callback that component never makes. */
  function EventOf(screen: Screen, call: Callback, clock: Clock): Option<Event> {
    match (screen, call)
    case (PersonScreen, OnSelect(a)) => Some(PersonChosen(a))
    case (GarmentScreen, OnSelect(a)) => Some(GarmentChosen(a))
    case (GarmentScreen, OnAddCustomGarment(a)) => Some(GarmentAdded(a))
    case (ResultScreen(_), OnResultGenerated(url)) => Some(ResultGenerated(url, clock))
    case _ => None
  }

  /** Delivering a component's callbacks to the handlers, in order. */
  function Deliver(s: State, calls: seq<Callback>, clock: Clock): State
    decreases |calls|
  {
    if |calls| == 0 then s
    else
      var next := match EventOf(CurrentScreen(s), calls[0], clock)
        case Some(e) => Apply(s, e)
        case None => s;
      Deliver(next, calls[1..], clock)
  }

  // ---------------------------------------------------------------------
  // Properties of whole interactions

  /** A run of recorded results, oldest first. */
  datatype Recording = Recording(url: string, clock: Clock)

  function RecordAll(s: State, recordings: seq<Recording>): State
    decreases |recordings|
  {
    if |recordings| == 0 then s
    else
      var last := recordings[|recordings| - 1];
      HandleResultGenerated(RecordAll(s, recordings[..|recordings| - 1]), last.url, last.clock)
  }

  /** After N recordings with both selections present the history has
      grown by exactly N entries, newest first, in front of the old one. */
  lemma {:induction false} HistoryAfterRecordings(s: State, recordings: seq<Recording>)
    requires s.selectedPerson.Some? && s.selectedGarment.Some?
    ensures var r := RecordAll(s, recordings);
            && |r.history| == |s.history| + |recordings|
            && r.history[|recordings|..] == s.history
            && (forall k :: 0 <= k < |recordings| ==>
                  r.history[k] == EntryFor(s.selectedPerson.value, s.selectedGarment.value,
                                           recordings[|recordings| - 1 - k].url,
                                           recordings[|recordings| - 1 - k].clock))
            && (|recordings| > 0 ==> r.resultUrl == Some(recordings[|recordings| - 1].url))
            && r.selectedPerson == s.selectedPerson && r.selectedGarment == s.selectedGarment
    decreases |recordings|
  {
    if |recordings| > 0 {
      var n := |recordings|;
      var init := recordings[..n - 1];
      HistoryAfterRecordings(s, init);
      var prev := RecordAll(s, init);
      var r := RecordAll(s, recordings);
      assert r.history[1..] == prev.history;
      assert r.history[n..] == prev.history[n - 1..];
      forall k | 0 <= k < n
        ensures r.history[k] == EntryFor(s.selectedPerson.value, s.selectedGarment.value,
                                         recordings[n - 1 - k].url, recordings[n - 1 - k].clock)
      {
        if k > 0 {
          assert r.history[k] == prev.history[k - 1];
          assert init[n - 2 - (k - 1)] == recordings[n - 1 - k];
        }
      }
    }
  }

  /** Going back and choosing another garment keeps the earlier result, so
      the result step shows it again instead of generating a new one. */
  lemma StaleResultSurvivesReselection(s: State, other: ImageAsset)
    requires Inv(s) && s.step == GenerateResult && Truthy(s.resultUrl)
    requires other.id != ""
    ensures var back := Apply(s, ResultBack);
            var chosen := Apply(back, GarmentChosen(other));
            var again := Apply(chosen, GarmentNext);
            && Enabled(s, ResultBack) && Enabled(back, GarmentChosen(other)) && Enabled(chosen, GarmentNext)
            && again.selectedGarment == Some(other)
            && again.resultUrl == s.resultUrl
            && CurrentScreen(again).ResultScreen?
            && !StepThree.MountTriggers(CurrentScreen(again).props, StepThree.InitialUi)
  {
  }

  /** Choosing a person, by upload or preset, selects it and never moves
      the wizard on. */
  lemma PersonChoiceSelectsOnly(s: State, calls: seq<Callback>, clock: Clock)
    requires s.step == SelectPerson
    requires |calls| <= 1 && forall c :: c in calls ==> c.OnSelect?
    ensures Deliver(s, calls, clock).step == SelectPerson
    ensures calls != [] ==> Deliver(s, calls, clock) == HandlePersonSelect(s, calls[0].asset)
    ensures calls == [] ==> Deliver(s, calls, clock) == s
  {
    if calls != [] {
      assert calls[0] in calls;
      assert calls[1..] == [];
    }
  }

  /** Clicking the preset person at `i` selects exactly that preset, keeps
      the step, and enables Next. */
  lemma PresetPersonClickSelects(s: State, i: nat, clock: Clock)
    requires s.step == SelectPerson && i < |Catalog.PresetPeople|
    ensures var r := Deliver(s, StepOne.ClickPreset(Catalog.PresetPeople, i), clock);
            && r == HandlePersonSelect(s, Catalog.PresetPeople[i])
            && r.step == SelectPerson
            && Enabled(r, PersonNext)
  {
    PersonChoiceSelectsOnly(s, StepOne.ClickPreset(Catalog.PresetPeople, i), clock);
    Catalog.PresetsWellFormed();
  }

  /** Clicking a preset garment, listed after the custom ones, selects
      exactly that preset, keeps the step, and enables Next. */
  lemma PresetGarmentClickSelects(s: State, i: nat, clock: Clock)
    requires s.step == SelectGarment
    requires |s.customGarments| <= i < |s.customGarments| + |Catalog.PresetGarments|
    ensures var r := Deliver(s, StepTwo.ClickGarment(s.customGarments, i), clock);
            && r == HandleGarmentSelect(s, Catalog.PresetGarments[i - |s.customGarments|])
            && r.step == SelectGarment
            && Enabled(r, GarmentNext)
  {
    var calls := StepTwo.ClickGarment(s.customGarments, i);
    assert calls[1..] == [];
    Catalog.PresetsWellFormed();
  }

  /** Hence the first step's upload handler: a loaded, non-empty file becomes
      the selected person; anything else changes nothing. */
  lemma PersonUploadSelects(s: State, upload: Upload, now: nat, clock: Clock)
    requires s.step == SelectPerson
    ensures var r := Deliver(s, StepOne.HandleFileUpload(upload, now), clock);
            && r.step == SelectPerson
            && (upload.Loaded? && Truthy(upload.result) ==>
                  && r.selectedPerson.Some? && r.selectedPerson.value.url == upload.result.value
                  && Enabled(r, PersonNext))
            && (!(upload.Loaded? && Truthy(upload.result)) ==> r == s)
  {
    var calls := StepOne.HandleFileUpload(upload, now);
    PersonChoiceSelectsOnly(s, calls, clock);
  }

  /** The second step's add-then-select pair of callbacks puts the asset
      first among the custom garments and selects it, and nothing else. */
  lemma DeliverAddThenSelect(s: State, asset: ImageAsset, clock: Clock)
    requires s.step == SelectGarment
    ensures Deliver(s, [OnAddCustomGarment(asset), OnSelect(asset)], clock)
            == s.(customGarments := [asset] + s.customGarments, selectedGarment := Some(asset))
  {
    var calls := [OnAddCustomGarment(asset), OnSelect(asset)];
    var mid := HandleAddCustomGarment(s, asset);
    assert Deliver(s, calls, clock) == Deliver(mid, calls[1..], clock);
    assert calls[1..][1..] == [];
  }

  /** Uploading a garment puts it first among the custom garments and
      selects it, which enables Next. */
  lemma GarmentUploadAddsAndSelects(s: State, upload: Upload, now: nat, clock: Clock)
    requires s.step == SelectGarment
    requires upload.Loaded? && Truthy(upload.result)
    ensures var asset := StepTwo.HandleFileUpload(upload, now)[0].asset;
            var r := Deliver(s, StepTwo.HandleFileUpload(upload, now), clock);
            && r.customGarments == [asset] + s.customGarments
            && r.selectedGarment == Some(asset)
            && asset.url == upload.result.value
            && r.step == s.step && r.selectedPerson == s.selectedPerson
            && r.resultUrl == s.resultUrl && r.history == s.history
            && Enabled(r, GarmentNext)
  {
    var calls := StepTwo.HandleFileUpload(upload, now);
    DeliverAddThenSelect(s, calls[0].asset, clock);
  }

  /** A successful garment generation puts the generated asset first among
      the custom garments, flagged as generated, and selects it; a failed
      one changes nothing in the session. */
  lemma GeneratedGarmentAddsAndSelects(s: State, ui: StepTwo.Ui,
                                       remote: GeminiService.Request -> Outcome<GeminiService.Response>,
                                       now: nat, clock: Clock)
    requires s.step == SelectGarment
    ensures var run := StepTwo.HandleGenerate(ui, remote, now);
            var r := Deliver(s, run.calls, clock);
            && (run.calls != [] ==>
                  && r.customGarments == [run.calls[0].asset] + s.customGarments
                  && r.selectedGarment == Some(run.calls[0].asset)
                  && run.calls[0].asset.isGenerated == Some(true)
                  && r.resultUrl == s.resultUrl && r.history == s.history)
            && (run.calls == [] ==> r == s)
  {
    var run := StepTwo.HandleGenerate(ui, remote, now);
    if run.calls != [] {
      var asset := run.calls[0].asset;
      assert run.calls == [OnAddCustomGarment(asset), OnSelect(asset)];
      DeliverAddThenSelect(s, asset, clock);
    }
  }

  /** The result step end to end: on the result screen, mounting the step
      either delivers an image, which becomes the result and the newest
      history entry for the shown person and garment, or changes nothing in
      the session. Once a result is stored, mounting the step again (after
      going back and forth) starts no second generation. */
  lemma TryOnRecordsResult(s: State, fetch: string -> Outcome<string>,
                           remote: GeminiService.Request -> Outcome<GeminiService.Response>,
                           clock: Clock)
    requires CurrentScreen(s).ResultScreen? && !Truthy(s.resultUrl)
    ensures var run := StepThree.OnMount(CurrentScreen(s).props, fetch, remote);
            var r := Deliver(s, StepThree.Callbacks(run), clock);
            && (run.delivered.Some? ==>
                  && r.resultUrl == run.delivered
                  && r.history == [EntryFor(s.selectedPerson.value, s.selectedGarment.value,
                                            run.delivered.value, clock)] + s.history
                  && r.step == s.step && r.selectedPerson == s.selectedPerson
                  && r.selectedGarment == s.selectedGarment
                  && !StepThree.MountTriggers(CurrentScreen(r).props, StepThree.InitialUi))
            && (run.delivered.None? ==> r == s && run.after.error == Some(StepThree.FailureMessage))
  {
    var run := StepThree.OnMount(CurrentScreen(s).props, fetch, remote);
    if run.delivered.Some? {
      var calls := StepThree.Callbacks(run);
      assert calls[1..] == [];
      var next := HandleResultGenerated(s, run.delivered.value, clock);
      assert EventOf(CurrentScreen(s), calls[0], clock) == Some(ResultGenerated(run.delivered.value, clock));
      assert Deliver(s, calls, clock) == Deliver(next, [], clock);
      assert GeminiService.PngDataUrlPrefix <= run.delivered.value;
    }
  }
}
