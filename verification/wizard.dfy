/** `ProjectInitializationWizard`: the step counter (rendered steps 2 to 5),
    the selected Ref Curator project, the feature and user-flow lists it
    passes between the builders, and the per-mount state of the user-flow
    builder. Each user action is dispatched to the handler of the step
    currently rendered. */
module Wizard {
  import opened Text
  import opened Seqs
  import opened Entities
  import opened Suggestions
  import FeatureMatrix
  import UserFlows
  import SelectionForm

  /** The user-flow builder's own state, which starts afresh each time the
      flow step is rendered: the feature whose flows are listed, and the
      reference dialog with the flow it was opened on. */
  datatype FlowView = FlowView(picked: Option<string>, dialogFlow: Option<string>, dialogOpen: bool)

  datatype Wizard = Wizard(
    current: Option<Project>,
    step: int,
    selected: Option<Project>,
    features: seq<Feature>,
    flows: seq<UserFlow>,
    view: FlowView)

  /** The flow builder as mounted for the given features: the first feature
      is listed and the dialog is closed. */
  function Mount(features: seq<Feature>): (v: FlowView)
    ensures features == [] <==> v.picked.None?
    ensures features != [] ==> v.picked == Some(features[0].id)
    ensures !v.dialogOpen && v.dialogFlow.None?
  {
    FlowView(if |features| > 0 then Some(features[0].id) else None, None, false)
  }

  /** The wizard as first rendered: at step 2, with the current project (if
      any) selected and its suggestions as the features. */
  function Initial(current: Option<Project>, now: nat): (w: Wizard)
    ensures w.step == 2 && w.selected == current && w.flows == []
    ensures w.features == Suggest(current, now)
    ensures current.None? ==> w.features == []
  {
    Wizard(current, 2, current, Suggest(current, now), [], Mount([]))
  }

  /** What the user can do; which actions a step offers is `Offered`. */
  datatype Action =
    | Continue
    | Choose(project: Project)
    | Back
    | AddFeature
    | RemoveFeature(id: string)
    | EditFeature(id: string, edit: FeatureMatrix.FeatureEdit)
    | FeaturesNext
    | PickFeature(featureId: string)
    | AddFlow
    | RemoveFlow(id: string)
    | EditFlow(id: string, flowEdit: UserFlows.FlowEdit)
    | OpenDialog(flowId: string)
    | CloseDialog
    | Attach(reference: Reference)
    | Detach(flowId: string, referenceId: string)
    | FlowsNext

  /** The references the dialog lists: those of the selected project. */
  function DialogReferences(w: Wizard): (refs: seq<Reference>)
    ensures w.selected.None? ==> refs == []
    ensures w.selected.Some? ==> refs == w.selected.value.references
  {
    if w.selected.Some? then w.selected.value.references else []
  }

  /** The actions the rendered step offers. Step 2 shows the details view
      (with its continue button) when a current project was given, and the
      selection form (which hands on a saved project) otherwise; the flow
      inputs only edit names and descriptions; the feature select lists the
      features; the dialog lists the selected project's references. */
  predicate Offered(w: Wizard, a: Action): (r: bool)
    ensures r ==> 2 <= w.step <= 5
    ensures r && w.step == 2 ==> a.Continue? || a.Choose?
    ensures r && w.step == 5 ==> a.Back?
    ensures r && a.Attach? ==> w.selected.Some? && a.reference in w.selected.value.references
  {
    match a
    case Continue => w.step == 2 && w.current.Some?
    case Choose(_) => w.step == 2 && w.current.None?
    case Back => 3 <= w.step <= 5
    case AddFeature => w.step == 3
    case RemoveFeature(_) => w.step == 3
    case EditFeature(_, _) => w.step == 3
    case FeaturesNext => w.step == 3
    case PickFeature(id) => w.step == 4 && exists f :: f in w.features && f.id == id
    case AddFlow => w.step == 4
    case RemoveFlow(_) => w.step == 4
    case EditFlow(_, e) => w.step == 4 && !e.SetReferences?
    case OpenDialog(_) => w.step == 4
    case CloseDialog => w.step == 4
    case Attach(r) => w.step == 4 && w.view.dialogOpen && r in DialogReferences(w)
    case Detach(_, _) => w.step == 4
    case FlowsNext => w.step == 4
  }

  /** The dialog was opened on a flow that is still in the list. */
  predicate DialogOnKnownFlow(w: Wizard) {
    UserFlows.IsSet(w.view.dialogFlow) && UserFlows.FindFlow(w.flows, w.view.dialogFlow.value) >= 0
  }

  /** The dialog's reference button: the flow builder's attach on the flow
      the dialog was opened on. A successful attach closes the dialog; a
      toast leaves everything as it was; an unset or unknown flow does
      nothing. */
  function AttachStep(w: Wizard, ref: Reference): (r: (Wizard, Option<Notice>))
    ensures r.1 == UserFlows.Attach(w.flows, w.view.dialogFlow, ref).1
    ensures r.1.Some? ==> r.0 == w
    ensures r.1.None? && DialogOnKnownFlow(w) ==>
      r.0 == w.(flows := UserFlows.Attach(w.flows, w.view.dialogFlow, ref).0,
                view := w.view.(dialogOpen := false))
    ensures !DialogOnKnownFlow(w) ==> r.0 == w
  {
    var (flows, notice) := UserFlows.Attach(w.flows, w.view.dialogFlow, ref);
    if notice.Some? then
      (w, notice)
    else if DialogOnKnownFlow(w) then
      (w.(flows := flows, view := w.view.(dialogOpen := false)), None)
    else
      (w, None)
  }

  /** One action, with the toast it shows. A step change to 4 mounts the
      flow builder afresh. */
  function Dispatch(w: Wizard, a: Action, now: nat): (r: (Wizard, Option<Notice>))
    requires Offered(w, a)
    ensures r.0.current == w.current
    ensures r.1.Some? ==> r.0 == w
    ensures a.Back? ==> r.0 == w.(step := w.step - 1, view := r.0.view)
    ensures a.Choose? ==>
      r.0 == w.(step := 3, selected := Some(a.project), features := Suggest(Some(a.project), now))
    ensures a.Continue? ==> r.0 == w.(step := 3)
    ensures a.FeaturesNext? ==>
      (r.1.Some? <==> FeatureMatrix.Next(w.features).Blocked?)
    ensures a.FeaturesNext? && r.1.None? ==>
      r.0.step == 4 && r.0.features == FeatureMatrix.Next(w.features).committed && r.0.flows == w.flows
    ensures a.FlowsNext? ==> (r.1.Some? <==> UserFlows.Next(w.flows).Blocked?)
    ensures a.FlowsNext? && r.1.None? ==>
      r.0.step == 5 && r.0.flows == UserFlows.Next(w.flows).committed && r.0.features == w.features
    ensures r.0.step != w.step ==> a.Back? || a.Continue? || a.Choose? || a.FeaturesNext? || a.FlowsNext?
    ensures a.Back? ==> r.0.view == if w.step == 5 then Mount(w.features) else w.view
    ensures a.FeaturesNext? && r.1.None? ==> r.0.view == Mount(r.0.features) && r.0.selected == w.selected
    ensures a.FlowsNext? && r.1.None? ==> r.0.view == w.view && r.0.selected == w.selected
    ensures !a.Choose? ==> r.0.selected == w.selected
    ensures !a.Choose? && !a.AddFeature? && !a.RemoveFeature? && !a.EditFeature? && !a.FeaturesNext? ==>
      r.0.features == w.features
    ensures !a.AddFlow? && !a.RemoveFlow? && !a.EditFlow? && !a.Attach? && !a.Detach? && !a.FlowsNext? ==>
      r.0.flows == w.flows
  {
    match a
    case Continue => (w.(step := 3), None)
    case Choose(p) =>
      (w.(step := 3, selected := Some(p), features := Suggest(Some(p), now)), None)
    case Back =>
      var back := w.(step := w.step - 1);
      (if back.step == 4 then back.(view := Mount(w.features)) else back, None)
    case AddFeature => (w.(features := FeatureMatrix.AddFeature(w.features, now)), None)
    case RemoveFeature(id) => (w.(features := FeatureMatrix.RemoveFeature(w.features, id)), None)
    case EditFeature(id, e) => (w.(features := FeatureMatrix.UpdateFeature(w.features, id, e)), None)
    case FeaturesNext =>
      (match FeatureMatrix.Next(w.features)
       case Blocked(n) => (w, Some(n))
       case Proceed(committed, _) =>
         (w.(step := 4, features := committed, view := Mount(committed)), None))
    case PickFeature(id) => (w.(view := w.view.(picked := Some(id))), None)
    case AddFlow => (w.(flows := UserFlows.AddFlow(w.flows, w.view.picked, now)), None)
    case RemoveFlow(id) => (w.(flows := UserFlows.RemoveFlow(w.flows, id)), None)
    case EditFlow(id, e) => (w.(flows := UserFlows.UpdateFlow(w.flows, id, e)), None)
    case OpenDialog(id) => (w.(view := w.view.(dialogFlow := Some(id), dialogOpen := true)), None)
    case CloseDialog => (w.(view := w.view.(dialogOpen := false)), None)
    case Attach(ref) => AttachStep(w, ref)
    case Detach(flowId, refId) => (w.(flows := UserFlows.Detach(w.flows, flowId, refId)), None)
    case FlowsNext =>
      (match UserFlows.Next(w.flows)
       case Blocked(n) => (w, Some(n))
       case Proceed(committed, _) => (w.(step := 5, flows := committed), None))
  }

  /** Each builder action applies its builder's operation to its own list,
      or its own part of the flow builder's state, and changes nothing else. */
  lemma {:induction false} DispatchApplies(w: Wizard, a: Action, now: nat)
    requires Offered(w, a)
    ensures var r := Dispatch(w, a, now);
      && (a.AddFeature? ==> r.0 == w.(features := FeatureMatrix.AddFeature(w.features, now)))
      && (a.RemoveFeature? ==> r.0 == w.(features := FeatureMatrix.RemoveFeature(w.features, a.id)))
      && (a.EditFeature? ==> r.0 == w.(features := FeatureMatrix.UpdateFeature(w.features, a.id, a.edit)))
      && (a.PickFeature? ==> r.0 == w.(view := w.view.(picked := Some(a.featureId))))
      && (a.AddFlow? ==> r.0 == w.(flows := UserFlows.AddFlow(w.flows, w.view.picked, now)))
      && (a.RemoveFlow? ==> r.0 == w.(flows := UserFlows.RemoveFlow(w.flows, a.id)))
      && (a.EditFlow? ==> r.0 == w.(flows := UserFlows.UpdateFlow(w.flows, a.id, a.flowEdit)))
      && (a.OpenDialog? ==> r.0 == w.(view := w.view.(dialogFlow := Some(a.flowId), dialogOpen := true)))
      && (a.CloseDialog? ==> r.0 == w.(view := w.view.(dialogOpen := false)))
      && (a.Attach? ==> r == AttachStep(w, a.reference))
      && (a.Detach? ==> r.0 == w.(flows := UserFlows.Detach(w.flows, a.flowId, a.referenceId)))
      && (!a.FeaturesNext? && !a.FlowsNext? && !a.Attach? ==> r.1 == None)
      && (a.FeaturesNext? ==>
            r.1 == if FeatureMatrix.Next(w.features).Blocked? then Some(FeatureMatrix.Next(w.features).notice) else None)
      && (a.FlowsNext? ==>
            r.1 == if UserFlows.Next(w.flows).Blocked? then Some(UserFlows.Next(w.flows).notice) else None)
  {
    match a
    case Attach(_) =>
    case _ =>
  }

  /** A feature added by hand never takes the id of a suggested one: its id
      ends in digits, a suggestion's in `-` and the rule's number. */
  lemma AddedIdNotSuggested(a: nat, b: nat, rule: Rule)
    requires rule.suffix != ""
    ensures FeatureMatrix.NewFeatureId(a) != Suggested(rule, b).id
  {
    var added, suggested := FeatureMatrix.NewFeatureId(a), Suggested(rule, b).id;
    var k := 8 + |Decimal(b)|;
    assert suggested[k] == '-';
    if |added| > k {
      assert IsDigit(added[k]);
    }
  }

  /** What the wizard keeps true between actions: the step is one of the
      four rendered ones; a given current project stays selected; the flow
      step is only reached with complete features, and the summary only
      with complete flows that all carry references; no flow carries two
      references with the same id. */
  ghost predicate Inv(w: Wizard) {
    && 2 <= w.step <= 5
    && (w.current.Some? ==> w.selected == w.current)
    && (w.step >= 4 ==> w.features != [] && forall f :: f in w.features ==> FeatureMatrix.IsComplete(f))
    && (w.step == 5 ==>
          w.flows != [] && forall fl :: fl in w.flows ==> UserFlows.IsComplete(fl) && fl.references != [])
    && UserFlows.ReferencesDistinct(w.flows)
  }

  lemma InitialInv(current: Option<Project>, now: nat)
    ensures Inv(Initial(current, now))
  {
  }

  /** The flow builder's actions keep the flows' references distinct. */
  lemma {:induction false} FlowActionKeepsDistinct(w: Wizard, a: Action, now: nat)
    requires Offered(w, a) && UserFlows.ReferencesDistinct(w.flows)
    ensures UserFlows.ReferencesDistinct(Dispatch(w, a, now).0.flows)
  {
    var after := Dispatch(w, a, now).0.flows;
    match a {
      case AddFlow =>
        forall fl | fl in after
          ensures UserFlows.DistinctIds(fl.references)
        {
          var i :| 0 <= i < |after| && after[i] == fl;
          if i < |w.flows| {
            assert after[..|w.flows|][i] == fl;
          }
        }
      case RemoveFlow(id) =>
      case EditFlow(id, e) =>
        forall fl | fl in after
          ensures UserFlows.DistinctIds(fl.references)
        {
          var i :| 0 <= i < |after| && after[i] == fl;
          assert w.flows[i] in w.flows;
        }
      case Attach(ref) =>
        UserFlows.AttachKeepsDistinct(w.flows, w.view.dialogFlow, ref);
      case Detach(flowId, refId) =>
        UserFlows.DetachKeepsDistinct(w.flows, flowId, refId);
      case FlowsNext =>
      case _ =>
    }
  }

  /** A successful continue from the feature step reaches the flow step
      with complete features only. */
  lemma {:induction false} FeaturesNextKeepsInv(w: Wizard, now: nat)
    requires Inv(w) && w.step == 3
    ensures Inv(Dispatch(w, FeaturesNext, now).0)
  {
    var next := FeatureMatrix.Next(w.features);
    if next.Proceed? {
      assert next.committed != [] by {
        var f :| f in w.features && FeatureMatrix.IsComplete(f);
        assert f in next.committed;
      }
      assert Dispatch(w, FeaturesNext, now).0
        == w.(step := 4, features := next.committed, view := Mount(next.committed));
    }
  }

  /** A successful continue from the flow step reaches the summary with
      complete, referenced flows only. */
  lemma {:induction false} FlowsNextKeepsInv(w: Wizard, now: nat)
    requires Inv(w) && w.step == 4
    ensures Inv(Dispatch(w, FlowsNext, now).0)
  {
    var next := UserFlows.Next(w.flows);
    if next.Proceed? {
      assert next.committed != [] by {
        var fl :| fl in w.flows && UserFlows.IsComplete(fl);
        assert fl in next.committed;
      }
      assert UserFlows.ReferencesDistinct(next.committed) by {
        forall fl | fl in next.committed
          ensures UserFlows.DistinctIds(fl.references)
        {
          assert fl in w.flows;
        }
      }
      assert Dispatch(w, FlowsNext, now).0 == w.(step := 5, flows := next.committed);
    }
  }

  /** Every offered action keeps the invariant. */
  lemma {:induction false} DispatchKeepsInv(w: Wizard, a: Action, now: nat)
    requires Inv(w) && Offered(w, a)
    ensures Inv(Dispatch(w, a, now).0)
  {
    if a.FeaturesNext? {
      FeaturesNextKeepsInv(w, now);
    } else if a.FlowsNext? {
      FlowsNextKeepsInv(w, now);
    } else {
      FlowActionKeepsDistinct(w, a, now);
    }
  }

  /** Going back from the flow step and continuing again returns to it with
      the features as they were. */
  lemma {:induction false} BackThenNextFromFlows(w: Wizard, now: nat)
    requires Inv(w) && w.step == 4
    ensures var back := Dispatch(w, Back, now).0;
      Offered(back, FeaturesNext) && Dispatch(back, FeaturesNext, now).0.step == 4
      && Dispatch(back, FeaturesNext, now).0.features == w.features
      && Dispatch(back, FeaturesNext, now).1 == None
  {
    var back := Dispatch(w, Back, now).0;
    assert back.step == 3 && back.features == w.features;
    FeatureMatrix.AllCompleteProceeds(w.features);
    assert Dispatch(back, FeaturesNext, now)
      == (back.(step := 4, features := w.features, view := Mount(w.features)), None);
  }

  /** Going back from the summary and continuing again returns to it with
      the flows as they were. */
  lemma {:induction false} BackThenNextFromSummary(w: Wizard, now: nat)
    requires Inv(w) && w.step == 5
    ensures var back := Dispatch(w, Back, now).0;
      Offered(back, FlowsNext) && Dispatch(back, FlowsNext, now).0.step == 5
      && Dispatch(back, FlowsNext, now).0.flows == w.flows
      && Dispatch(back, FlowsNext, now).1 == None
  {
    var back := Dispatch(w, Back, now).0;
    assert back.step == 4 && back.flows == w.flows;
    UserFlows.AllCompleteProceeds(w.flows);
    assert Dispatch(back, FlowsNext, now) == (back.(step := 5), None);
  }

  /** Removing a feature keeps the flows defined for it: their `featureId`
      then names no feature. */
  lemma RemovedFeatureLeavesFlows(w: Wizard, id: string, now: nat)
    requires w.step == 3
    ensures var r := Dispatch(w, RemoveFeature(id), now).0;
      forall fl :: fl in w.flows && fl.featureId == id ==>
        fl in r.flows && forall f :: f in r.features ==> f.id != fl.featureId
  {
  }

  /** Choosing a project in the selection form replaces whatever features
      were edited in its dialog: the wizard recomputes the suggestions from
      the saved project, and it keeps the flows it had. */
  lemma {:induction false} ChooseAfterSave(form: SelectionForm.Form, w: Wizard, now: nat)
    requires w.step == 2 && w.current.None?
    requires SelectionForm.Save(form).Saved?
    ensures var p := SelectionForm.Save(form).project;
      var r := Dispatch(w, Choose(p), now).0;
      p == form.edited.value && r.features == Suggest(Some(p), now) && r.flows == w.flows
      && r.step == 3
  {
  }
}
