/** The initialization progress tracker: seven fixed phases, a "Start
    Initialization" run that completes them one after the other while a
    progress bar advances, a reset, and the table that fast-forwards the
    tracker to match the wizard's step. The one-second pauses between phases
    are left out: a run is one uninterrupted pass whose intermediate states
    are returned as a trace. */
module InitFlow {
  import opened Entities

  datatype Phase = Phase(id: nat, title: string, description: string, completed: bool)

  /** The component's state: its phase list, `currentStep` (0 before a
      run, the phase in progress during one, 8 after), `isProcessing` and
      the percentage the progress bar shows. */
  datatype Tracker = Tracker(phases: seq<Phase>, current: int, processing: bool, progress: int)

  const Catalogue: seq<Phase> := [
    Phase(1, "Create Project", "Store project with metadata (goals, references)", false),
    Phase(2, "Extract Details", "Extract key details and goals from project metadata", false),
    Phase(3, "Analyze References", "Analyze competitor references for insights", false),
    Phase(4, "Generate Features", "Create a list of features based on goals and references", false),
    Phase(5, "Break Down Flows", "Break references into detailed user flows", false),
    Phase(6, "Link Features to References", "Connect each feature and flow to relevant references", false),
    Phase(7, "Initialize Structure", "Set up project structure based on features and flows", false)]

  /** The argument the run hands to its completion listener. */
  const FinishedPhase := 7

  const Initial := Tracker(Catalogue, 0, false, 0)

  /** `Math.round((k / n) * 100)`: the nearest whole percentage, halves
      rounded up. The division is exact here; no floating-point error is
      modelled. */
  function Percent(k: nat, n: nat): (r: int)
    requires n > 0
    ensures -(n as int) < 2 * (n * r - 100 * k) <= n
  {
    var q := (200 * k + n) / (2 * n);
    var m := (200 * k + n) % (2 * n);
    assert 200 * k + n == 2 * n * q + m;
    q
  }

  /** `phase` and `before` agree on everything but the completion flag. */
  predicate SamePhase(phase: Phase, before: Phase) {
    phase.id == before.id && phase.title == before.title && phase.description == before.description
  }

  /** `prev.map(step => done(step.id) ? {...step, completed: true} : step)`. */
  function Mark(phases: seq<Phase>, done: nat -> bool): (r: seq<Phase>)
    ensures |r| == |phases|
    ensures forall i :: 0 <= i < |r| ==> SamePhase(r[i], phases[i])
    ensures forall i :: 0 <= i < |r| ==> (r[i].completed <==> phases[i].completed || done(phases[i].id))
  {
    seq(|phases|, i requires 0 <= i < |phases| =>
      if done(phases[i].id) then phases[i].(completed := true) else phases[i])
  }

  /** `prev.map(step => ({...step, completed: false}))`. */
  function Clear(phases: seq<Phase>): (r: seq<Phase>)
    ensures |r| == |phases|
    ensures forall i :: 0 <= i < |r| ==> SamePhase(r[i], phases[i]) && !r[i].completed
  {
    seq(|phases|, i requires 0 <= i < |phases| => phases[i].(completed := false))
  }

  /** The last phase the sync table counts as done for a wizard step, or 0. */
  function SyncedPhase(wizardStep: int): nat {
    if wizardStep == 2 then 1
    else if wizardStep == 3 then 3
    else if wizardStep == 4 then 4
    else if wizardStep == 5 then 6
    else 0
  }

  /** The effect that follows the wizard's step. Step 1 clears the tracker;
      steps 2 to 5 mark the phases up to `SyncedPhase` done, point
      `currentStep` at that phase and show its share of seven phases rounded
      down; any other step changes nothing. */
  function Sync(t: Tracker, wizardStep: int): (r: Tracker)
    ensures r.processing == t.processing && |r.phases| == |t.phases|
    ensures forall i :: 0 <= i < |r.phases| ==> SamePhase(r.phases[i], t.phases[i])
    ensures wizardStep == 1 ==>
      r.current == 0 && r.progress == 0 && forall i :: 0 <= i < |r.phases| ==> !r.phases[i].completed
    ensures 2 <= wizardStep <= 5 ==> r.current == SyncedPhase(wizardStep)
    ensures 2 <= wizardStep <= 5 ==>
      7 * r.progress <= 100 * SyncedPhase(wizardStep) < 7 * (r.progress + 1)
    ensures 2 <= wizardStep <= 5 ==> forall i :: 0 <= i < |r.phases| && r.phases[i].id >= 1 ==>
      (r.phases[i].completed <==> t.phases[i].completed || r.phases[i].id <= SyncedPhase(wizardStep))
    ensures !(1 <= wizardStep <= 5) ==> r == t
  {
    if wizardStep == 1 then
      t.(phases := Clear(t.phases), current := 0, progress := 0)
    else if wizardStep == 2 then
      t.(phases := Mark(t.phases, id => id == 1), current := 1, progress := 14)
    else if wizardStep == 3 then
      t.(phases := Mark(t.phases, id => id <= 3), current := 3, progress := 42)
    else if wizardStep == 4 then
      t.(phases := Mark(t.phases, id => id <= 4), current := 4, progress := 57)
    else if wizardStep == 5 then
      t.(phases := Mark(t.phases, id => id <= 6), current := 6, progress := 85)
    else
      t
  }

  /** `resetProcess`. */
  function Reset(t: Tracker): (r: Tracker)
    ensures r.current == 0 && r.progress == 0 && r.processing == t.processing
    ensures |r.phases| == |t.phases|
    ensures forall i :: 0 <= i < |r.phases| ==> SamePhase(r.phases[i], t.phases[i]) && !r.phases[i].completed
  {
    t.(phases := Clear(t.phases), current := 0, progress := 0)
  }

  /** `startProcess` without its pauses. When a run has already begun
      (`currentStep > 0`) nothing happens. Otherwise the phases with ids 1 to
      n (n the number of phases) are completed in order; `trace[k]` is the
      tracker after k of them, and the listener, if any, is told phase 7 is
      finished. */
  method Start(t: Tracker, hasListener: bool) returns (r: Tracker, trace: seq<Tracker>, notified: Option<int>)
    ensures t.current > 0 ==> r == t && trace == [] && notified == None
    ensures t.current <= 0 ==> |trace| == |t.phases| + 1
    ensures t.current <= 0 ==> forall k :: 0 <= k < |trace| ==>
      && trace[k].current == k + 1 && trace[k].processing
      && trace[k].progress == (if k == 0 then t.progress else Percent(k, |t.phases|))
      && |trace[k].phases| == |t.phases|
      && (forall i :: 0 <= i < |t.phases| ==> SamePhase(trace[k].phases[i], t.phases[i]))
      && (forall i :: 0 <= i < |t.phases| ==>
            (trace[k].phases[i].completed <==> t.phases[i].completed || 1 <= t.phases[i].id <= k))
    ensures t.current <= 0 ==> r == trace[|t.phases|].(processing := false)
    ensures t.current <= 0 ==> notified == (if hasListener then Some(FinishedPhase) else None)
  {
    if t.current > 0 {
      return t, [], None;
    }
    var n := |t.phases|;
    var s := t.(processing := true, current := 1);
    trace := [s];
    var i := 0;
    while i < n
      invariant 0 <= i <= n && |trace| == i + 1 && s == trace[i]
      invariant forall k :: 0 <= k < |trace| ==>
        && trace[k].current == k + 1 && trace[k].processing
        && trace[k].progress == (if k == 0 then t.progress else Percent(k, n))
        && |trace[k].phases| == n
        && (forall j :: 0 <= j < n ==> SamePhase(trace[k].phases[j], t.phases[j]))
        && (forall j :: 0 <= j < n ==>
              (trace[k].phases[j].completed <==> t.phases[j].completed || 1 <= t.phases[j].id <= k))
    {
      s := s.(phases := Mark(s.phases, id => id == i + 1), current := i + 2, progress := Percent(i + 1, n));
      trace := trace + [s];
      i := i + 1;
    }
    r := s.(processing := false);
    notified := if hasListener then Some(FinishedPhase) else None;
  }

  /** The button under the phase list: "Start Initialization" (enabled
      only while idle and the wizard is at step 1 or earlier), "Reset
      Process" once every phase is past, or the disabled "Processing Step k
      of n" label. */
  datatype Control = StartButton(enabled: bool) | ResetButton | Processing(step: int, total: nat)

  function ControlOf(t: Tracker, wizardStep: int): (r: Control)
    ensures r.StartButton? <==> t.current == 0
    ensures r.StartButton? ==> (r.enabled <==> !t.processing && wizardStep <= 1)
    ensures r.ResetButton? <==> t.current > |t.phases|
    ensures r.Processing? ==> r.step == t.current && r.total == |t.phases|
  {
    if t.current == 0 then StartButton(!(t.processing || wizardStep > 1))
    else if t.current > |t.phases| then ResetButton
    else Processing(t.current, |t.phases|)
  }

  /** The shape every reachable tracker keeps: the seven catalogue phases in
      order, a step between 0 and 8, a percentage between 0 and 100, no run
      in progress between two operations, and nothing done while the
      tracker is at rest. */
  ghost predicate Inv(t: Tracker) {
    && |t.phases| == |Catalogue|
    && (forall i :: 0 <= i < |t.phases| ==> SamePhase(t.phases[i], Catalogue[i]))
    && 0 <= t.current <= |Catalogue| + 1
    && 0 <= t.progress <= 100
    && !t.processing
    && (t.current == 0 ==> t.progress == 0 && forall i :: 0 <= i < |t.phases| ==> !t.phases[i].completed)
  }

  /** The catalogue lists phases 1 to 7 in order. */
  lemma CatalogueIds()
    ensures |Catalogue| == 7
    ensures forall i :: 0 <= i < |Catalogue| ==> Catalogue[i].id == i + 1 && !Catalogue[i].completed
  {
  }

  lemma InitialInv()
    ensures Inv(Initial)
    ensures ControlOf(Initial, 1) == StartButton(true)
  {
  }

  /** The wizard-step sync keeps the tracker well formed. */
  lemma SyncKeepsInv(t: Tracker, wizardStep: int)
    requires Inv(t)
    ensures Inv(Sync(t, wizardStep))
  {
    var r := Sync(t, wizardStep);
    forall i | 0 <= i < |r.phases|
      ensures SamePhase(r.phases[i], Catalogue[i])
    {
      assert SamePhase(r.phases[i], t.phases[i]) && SamePhase(t.phases[i], Catalogue[i]);
    }
  }

  /** Reset keeps the tracker well formed and brings back an enabled
      "Start Initialization" button while the wizard is at step 1. */
  lemma ResetReenablesStart(t: Tracker)
    requires Inv(t)
    ensures Inv(Reset(t))
    ensures ControlOf(Reset(t), 1) == StartButton(true)
  {
    var r := Reset(t);
    forall i | 0 <= i < |r.phases|
      ensures SamePhase(r.phases[i], Catalogue[i])
    {
      assert SamePhase(r.phases[i], t.phases[i]) && SamePhase(t.phases[i], Catalogue[i]);
    }
  }

  /** At wizard step 1 the sync does exactly what the reset button does. */
  lemma SyncOneIsReset(t: Tracker)
    ensures Sync(t, 1) == Reset(t)
  {
  }

  /** Rounding k sevenths to whole percentages gives the values the
      progress bar shows during a run. */
  lemma PercentSevenths()
    ensures Percent(1, 7) == 14 && Percent(2, 7) == 29 && Percent(3, 7) == 43
    ensures Percent(4, 7) == 57 && Percent(5, 7) == 71 && Percent(6, 7) == 86
    ensures Percent(7, 7) == 100
  {
  }

  /** A multiple of a positive `n` that is below `n` is at most zero. */
  lemma BelowFactor(n: nat, d: int)
    requires n > 0 && n * d < n
    ensures d <= 0
  {
  }

  /** More phases done never shows a smaller percentage. */
  lemma {:induction false} PercentMonotone(j: nat, k: nat, n: nat)
    requires n > 0 && j <= k
    ensures Percent(j, n) <= Percent(k, n)
  {
    var a, b := Percent(j, n), Percent(k, n);
    assert n * a - n * b < n;
    assert n * (a - b) == n * a - n * b;
    BelowFactor(n, a - b);
  }

  /** With seven phases the bar reaches 100 exactly when all seven are done. */
  lemma {:induction false} FullOnlyAtEnd(k: nat)
    requires k <= 7
    ensures Percent(k, 7) == 100 <==> k == 7
  {
  }

  /** A run started from rest completes every phase, ends on step 8 with
      the bar at 100 and the reset button showing; after k phases exactly
      phases 1 to k are done; the bar never moves backwards; the listener
      hears of phase 7 exactly when there is one. */
  method RunFromRest(t: Tracker, hasListener: bool) returns (r: Tracker, trace: seq<Tracker>, notified: Option<int>)
    requires Inv(t) && t.current == 0
    ensures Inv(r)
    ensures r.current == 8 && r.progress == 100 && ControlOf(r, 1) == ResetButton
    ensures forall i :: 0 <= i < |r.phases| ==> r.phases[i].completed
    ensures |trace| == 8 && forall k :: 0 <= k < 8 ==> |trace[k].phases| == 7
    ensures forall k, i :: 0 <= k < 8 && 0 <= i < 7 ==> (trace[k].phases[i].completed <==> i < k)
    ensures forall j, k :: 0 <= j <= k < 8 ==> trace[j].progress <= trace[k].progress
    ensures forall k :: 0 <= k < 8 ==> (trace[k].progress == 100 <==> k == 7)
    ensures notified.Some? <==> hasListener
    ensures notified.Some? ==> notified.value == 7
  {
    CatalogueIds();
    r, trace, notified := Start(t, hasListener);
    forall i | 0 <= i < 7
      ensures t.phases[i].id == i + 1 && !t.phases[i].completed
    {
      assert SamePhase(t.phases[i], Catalogue[i]);
    }
    forall j, k | 0 <= j <= k < 8
      ensures trace[j].progress <= trace[k].progress
    {
      if j > 0 {
        PercentMonotone(j, k, 7);
      }
    }
    forall k | 0 <= k < 8
      ensures trace[k].progress == 100 <==> k == 7
    {
      if k > 0 {
        FullOnlyAtEnd(k);
      }
    }
    forall i | 0 <= i < |r.phases|
      ensures SamePhase(r.phases[i], Catalogue[i])
    {
      assert SamePhase(r.phases[i], t.phases[i]) && SamePhase(t.phases[i], Catalogue[i]);
    }
    PercentSevenths();
  }

  /** The sync table rounds down where a run rounds to nearest: at wizard
      steps 3 and 5 it shows 42 and 85 for phases the run would show as 43
      and 86, and it leaves `currentStep` on the last phase it marked where
      a run moves on to the next one. */
  lemma SyncLagsRun()
    ensures Sync(Initial, 3).progress == 42 && Percent(3, 7) == 43
    ensures Sync(Initial, 5).progress == 85 && Percent(6, 7) == 86
    ensures Sync(Initial, 3).current == 3
  {
  }
}
