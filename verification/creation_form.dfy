/** The stand-alone "create a Ref Curator project" form: a name, a list of
    goal texts and a list of reference texts, each list editable row by row,
    and a submit that validates, waits for the simulated save and resets. */
module CreationForm {
  import opened Text
  import opened Seqs
  import opened Entities

  /** The component's state; `submitting` is true while the simulated save runs. */
  datatype Form = Form(name: string, goals: seq<string>, references: seq<string>, submitting: bool)

  /** A fresh form: an empty name and one empty row in each list. */
  const Initial := Form("", [""], [""], false)

  /** What the rendered form lets the user do. */
  datatype Action =
    | SetName(name: string)
    | AddGoal
    | RemoveGoal(index: nat)
    | ChangeGoal(index: nat, value: string)
    | AddReference
    | RemoveReference(index: nat)
    | ChangeReference(index: nat, value: string)
    | Submit
    | SaveDone

  const NameRequired := Notice("Error", "Project name is required", Destructive)
  const GoalRequired := Notice("Error", "At least one goal is required", Destructive)
  const Created := Notice("Project Created",
    "Your project has been created successfully in Ref Curator", Default)

  /** `handleSubmit` up to the simulated save: the trimmed name is checked
      first, then whether some goal has text; references are not checked. */
  function StartSubmit(form: Form): (r: (Form, Option<Notice>))
    ensures !HasText(form.name) ==> r == (form, Some(NameRequired))
    ensures HasText(form.name) ==>
      ((forall g :: g in form.goals ==> !HasText(g)) <==> r == (form, Some(GoalRequired)))
    ensures r.1.None? <==> HasText(form.name) && exists g :: g in form.goals && HasText(g)
    ensures r.1.None? ==> r.0 == form.(submitting := true)
  {
    if !HasText(form.name) then
      (form, Some(NameRequired))
    else
      FilterEmptyIff(form.goals, HasText);
      if |Filter(form.goals, HasText)| == 0 then
        (form, Some(GoalRequired))
      else
        (form.(submitting := true), None)
  }

  /** The submit's validation never looks at the references. */
  lemma SubmitIgnoresReferences(form: Form, references: seq<string>)
    ensures StartSubmit(form.(references := references)).1 == StartSubmit(form).1
  {
  }

  /** The actions the rendered form offers: a row's remove button only
      while its list has more than one row, inputs only for rows shown, the
      submit button only while no save runs, and the end of the save only
      while one runs. */
  predicate Offered(form: Form, a: Action): (r: bool)
    ensures r && a.RemoveGoal? ==> |RemoveAt(form.goals, a.index)| >= 1
    ensures r && a.RemoveReference? ==> |RemoveAt(form.references, a.index)| >= 1
    ensures r && (a.Submit? || a.SaveDone?) ==> (a.Submit? <==> !form.submitting)
  {
    match a
    case RemoveGoal(i) => |form.goals| > 1 && i < |form.goals|
    case ChangeGoal(i, _) => i < |form.goals|
    case RemoveReference(i) => |form.references| > 1 && i < |form.references|
    case ChangeReference(i, _) => i < |form.references|
    case Submit => !form.submitting
    case SaveDone => form.submitting
    case _ => true
  }

  /** One action on the form, with the toast it shows. */
  function Step(form: Form, a: Action): (r: (Form, Option<Notice>))
    requires Offered(form, a)
    ensures a.SaveDone? ==> r == (Initial, Some(Created))
    ensures a.Submit? ==> r == StartSubmit(form)
    ensures !a.Submit? && !a.SaveDone? ==> r.1 == None && r.0.submitting == form.submitting
    ensures a.SetName? ==> r.0 == form.(name := a.name)
    ensures a.AddGoal? ==> r.0 == form.(goals := form.goals + [""])
    ensures a.RemoveGoal? ==>
      r.0 == form.(goals := RemoveAt(form.goals, a.index)) && |r.0.goals| == |form.goals| - 1
    ensures a.ChangeGoal? ==> r.0 == form.(goals := form.goals[a.index := a.value])
    ensures a.AddReference? ==> r.0 == form.(references := form.references + [""])
    ensures a.RemoveReference? ==>
      r.0 == form.(references := RemoveAt(form.references, a.index))
      && |r.0.references| == |form.references| - 1
    ensures a.ChangeReference? ==> r.0 == form.(references := form.references[a.index := a.value])
  {
    match a
    case SetName(n) => (form.(name := n), None)
    case AddGoal => (form.(goals := form.goals + [""]), None)
    case RemoveGoal(i) => (form.(goals := RemoveAt(form.goals, i)), None)
    case ChangeGoal(i, v) => (form.(goals := form.goals[i := v]), None)
    case AddReference => (form.(references := form.references + [""]), None)
    case RemoveReference(i) => (form.(references := RemoveAt(form.references, i)), None)
    case ChangeReference(i, v) => (form.(references := form.references[i := v]), None)
    case Submit => StartSubmit(form)
    case SaveDone => (Initial, Some(Created))
  }

  /** Both lists always show at least one row. */
  ghost predicate Valid(form: Form) {
    |form.goals| > 0 && |form.references| > 0
  }

  /** A fresh form shows one row in each list. */
  lemma InitialValid()
    ensures Valid(Initial)
  {
  }

  /** Every offered action keeps at least one row in each list. */
  lemma {:induction false} StepKeepsRows(form: Form, a: Action)
    requires Valid(form) && Offered(form, a)
    ensures Valid(Step(form, a).0)
  {
  }

  /** A submit that passes validation starts the save, after which only
      the end of the save can reset the form. */
  lemma SubmitStartsSave(form: Form)
    requires !form.submitting
    requires HasText(form.name) && exists g :: g in form.goals && HasText(g)
    ensures var started := Step(form, Submit).0;
      started.submitting && !Offered(started, Submit) && Offered(started, SaveDone)
  {
  }

  /** Whatever is typed while the save runs is lost when it ends: the form
      is reset to a fresh one. */
  lemma EditsDuringSaveLost(form: Form, a: Action)
    requires form.submitting && Offered(form, a) && !a.Submit? && !a.SaveDone?
    ensures var edited := Step(form, a).0;
      Offered(edited, SaveDone) && Step(edited, SaveDone).0 == Initial
  {
  }
}
