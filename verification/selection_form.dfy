/** The "Link to Ref Curator Project" step: a searchable project list, the
    review dialog in which the chosen project's name and goals and the
    suggested features can be edited and reordered, and the save check that
    hands the edited project to the wizard. */
module SelectionForm {
  import opened Text
  import opened Seqs
  import opened Entities
  import opened Suggestions
  import FeatureMatrix

  /** The component's props and state. */
  datatype Form = Form(
    projects: seq<Project>,
    search: string,
    selectedId: Option<string>,
    reviewOpen: bool,
    edited: Option<Project>,
    suggestions: seq<Feature>)

  /** The form as first rendered for the given projects. */
  function Initial(projects: seq<Project>): (r: Form)
    ensures r.projects == projects && r.search == "" && r.selectedId == None
    ensures !r.reviewOpen && r.edited == None && r.suggestions == []
  {
    Form(projects, "", None, false, None, [])
  }

  /** `filteredProjects`: the projects whose name contains the search term,
      ignoring case, in their original order. */
  function Filtered(projects: seq<Project>, search: string): (r: seq<Project>)
    ensures forall p :: p in r <==> p in projects && Includes(LowerCase(p.name), LowerCase(search))
    ensures SubsequenceOf(r, projects)
    ensures forall p :: p in projects ==>
      multiset(r)[p] == if Includes(LowerCase(p.name), LowerCase(search)) then multiset(projects)[p] else 0
  {
    FilterCount(projects, (p: Project) => Includes(LowerCase(p.name), LowerCase(search)));
    Filter(projects, (p: Project) => Includes(LowerCase(p.name), LowerCase(search)))
  }

  /** Every string includes the empty string. */
  lemma IncludesEmpty(s: string)
    ensures Includes(s, "")
  {
  }

  /** Whatever includes a needle includes every prefix of it. */
  lemma IncludesPrefix(s: string, a: string, b: string)
    requires Includes(s, a + b)
    ensures Includes(s, a)
  {
    IncludesIffOccurs(s, a + b);
    IncludesIffOccurs(s, a);
    var i :| OccursAt(s, a + b, i);
    assert s[i..i + |a|] == (a + b)[..|a|];
    assert OccursAt(s, a, i);
  }

  /** An empty search lists every project. */
  lemma {:induction false} EmptySearchShowsAll(projects: seq<Project>)
    ensures Filtered(projects, "") == projects
  {
    forall i | 0 <= i < |projects|
      ensures Includes(LowerCase(projects[i].name), LowerCase(""))
    {
      IncludesEmpty(LowerCase(projects[i].name));
    }
  }

  /** The search ignores the case of the term. */
  lemma {:induction false} SearchIgnoresCase(projects: seq<Project>, search: string)
    ensures Filtered(projects, LowerCase(search)) == Filtered(projects, search)
  {
    LowerCaseIdempotent(search);
  }

  /** Typing more of the term can only narrow the list. */
  lemma {:induction false} LongerSearchNarrows(projects: seq<Project>, search: string, more: string)
    ensures forall p :: p in Filtered(projects, search + more) ==> p in Filtered(projects, search)
  {
    LowerCaseConcat(search, more);
    forall p | p in Filtered(projects, search + more)
      ensures p in Filtered(projects, search)
    {
      IncludesPrefix(LowerCase(p.name), LowerCase(search), LowerCase(more));
    }
  }

  /** The radio group's `onValueChange`: marks a project without opening anything. */
  function Pick(form: Form, id: string): (r: Form)
    ensures r.selectedId == Some(id)
    ensures r.(selectedId := form.selectedId) == form
  {
    form.(selectedId := Some(id))
  }

  /** `projects.find(p => p.id === id)`, as an index (-1 when absent). */
  function FindProject(projects: seq<Project>, id: string): (k: int)
    ensures -1 <= k < |projects|
    ensures k >= 0 ==> projects[k].id == id && forall j :: 0 <= j < k ==> projects[j].id != id
    ensures k == -1 <==> forall j :: 0 <= j < |projects| ==> projects[j].id != id
  {
    FindIndex(projects, (p: Project) => p.id == id)
  }

  /** `handleSelectProject`: marks the project and, when it exists, opens the
      review dialog on a copy of it with freshly suggested features. */
  function Select(form: Form, id: string, now: nat): (r: Form)
    ensures r.selectedId == Some(id)
    ensures r.projects == form.projects && r.search == form.search
    ensures FindProject(form.projects, id) < 0 ==> r == form.(selectedId := Some(id))
    ensures FindProject(form.projects, id) >= 0 ==>
      var p := form.projects[FindProject(form.projects, id)];
      r.reviewOpen && r.edited == Some(p) && r.suggestions == Suggest(Some(p), now)
  {
    var k := FindProject(form.projects, id);
    if k < 0 then
      form.(selectedId := Some(id))
    else
      var p := form.projects[k];
      form.(selectedId := Some(id), edited := Some(p), suggestions := Suggest(Some(p), now),
            reviewOpen := true)
  }

  /** The dialog's `onOpenChange(false)`: closes it, keeping every edit. */
  function CloseReview(form: Form): (r: Form)
    ensures !r.reviewOpen
    ensures r.(reviewOpen := form.reviewOpen) == form
  {
    form.(reviewOpen := false)
  }

  /** Replaces the goals of the project under edit; without one, nothing happens. */
  function WithGoals(form: Form, goals: seq<string>): (r: Form)
    ensures form.edited.None? ==> r == form
    ensures form.edited.Some? ==> r == form.(edited := Some(form.edited.value.(goals := goals)))
  {
    match form.edited
    case None => form
    case Some(p) => form.(edited := Some(p.(goals := goals)))
  }

  /** The name input of the dialog. */
  function EditName(form: Form, name: string): (r: Form)
    ensures form.edited.None? ==> r == form
    ensures form.edited.Some? ==>
      && r.edited.Some?
      && r.edited.value == form.edited.value.(name := name)
      && r.(edited := form.edited) == form
  {
    match form.edited
    case None => form
    case Some(p) => form.(edited := Some(p.(name := name)))
  }

  /** `handleAddGoal`: appends an empty goal. */
  function AddGoal(form: Form): (r: Form)
    ensures form.edited.None? ==> r == form
    ensures form.edited.Some? ==>
      && r.edited.Some?
      && r.edited.value.goals == form.edited.value.goals + [""]
      && r.edited.value.(goals := form.edited.value.goals) == form.edited.value
      && r.(edited := form.edited) == form
  {
    match form.edited
    case None => form
    case Some(p) => WithGoals(form, p.goals + [""])
  }

  /** `handleUpdateGoal`: replaces the goal at `index`, which the dialog only
      offers for goals it shows. */
  function UpdateGoal(form: Form, index: nat, value: string): (r: Form)
    requires form.edited.Some? ==> index < |form.edited.value.goals|
    ensures form.edited.None? ==> r == form
    ensures form.edited.Some? ==>
      && r.edited.Some?
      && r.edited.value.goals == form.edited.value.goals[index := value]
      && r.edited.value.(goals := form.edited.value.goals) == form.edited.value
      && r.(edited := form.edited) == form
  {
    match form.edited
    case None => form
    case Some(p) => WithGoals(form, p.goals[index := value])
  }

  /** `handleRemoveGoal`: `splice(index, 1)` on a copy of the goals. */
  function RemoveGoal(form: Form, index: nat): (r: Form)
    ensures form.edited.None? ==> r == form
    ensures form.edited.Some? ==>
      && r.edited.Some?
      && r.edited.value.goals == RemoveAt(form.edited.value.goals, index)
      && r.edited.value.(goals := form.edited.value.goals) == form.edited.value
      && r.(edited := form.edited) == form
  {
    match form.edited
    case None => form
    case Some(p) => WithGoals(form, RemoveAt(p.goals, index))
  }

  /** The dialog shows a remove button on each goal row, disabled while the
      project has only one goal. */
  function GoalRemoveOffered(form: Form, index: nat): (r: bool)
    ensures r ==> form.edited.Some? && 1 < |form.edited.value.goals|
    ensures r ==> index < |form.edited.value.goals|
  {
    form.edited.Some? && index < |form.edited.value.goals| && |form.edited.value.goals| > 1
  }

  /** An offered goal removal leaves at least one goal. */
  lemma OfferedRemoveKeepsGoal(form: Form, index: nat)
    requires GoalRemoveOffered(form, index)
    ensures RemoveGoal(form, index).edited.Some?
    ensures |RemoveGoal(form, index).edited.value.goals| == |form.edited.value.goals| - 1 >= 1
  {
  }

  /** Removing the goal just added restores the project under edit. */
  lemma RemoveUndoesAddGoal(form: Form)
    ensures RemoveGoal(AddGoal(form), if form.edited.Some? then |form.edited.value.goals| else 0) == form
  {
    if form.edited.Some? {
      RemoveAppended(form.edited.value.goals, "");
    }
  }

  /** The direction buttons next to each suggested feature. */
  datatype Direction = Up | Down

  /** `k` is the index of the first feature with the id. */
  predicate FirstWithId(features: seq<Feature>, id: string, k: int) {
    0 <= k < |features| && features[k].id == id && forall j :: 0 <= j < k ==> features[j].id != id
  }

  /** The test `f.id === id`. */
  function IdIs(id: string): Feature -> bool {
    (f: Feature) => f.id == id
  }

  /** `features.findIndex(f => f.id === id)`, pinned down by `FirstWithId`. */
  function FindFeature(features: seq<Feature>, id: string): (k: int)
    ensures k == -1 <==> forall f :: f in features ==> f.id != id
    ensures k != -1 ==> FirstWithId(features, id, k)
    ensures forall j :: FirstWithId(features, id, j) ==> j == k
  {
    var k := FindIndex(features, IdIs(id));
    if k == -1 then
      assert forall f :: f in features ==> f.id != id by {
        forall f | f in features
          ensures f.id != id
        {
          var j :| 0 <= j < |features| && features[j] == f;
          assert !IdIs(id)(features[j]);
        }
      }
      k
    else
      assert features[k] in features;
      k
  }

  /** `handleMoveFeature`: swaps the first feature with the id with its
      neighbour in the given direction; at either end of the list, or for an
      unknown id, nothing moves. */
  function MoveFeature(features: seq<Feature>, id: string, dir: Direction): (r: seq<Feature>)
    ensures multiset(r) == multiset(features)
    ensures |r| == |features|
    ensures (forall f :: f in features ==> f.id != id) ==> r == features
    ensures forall k :: FirstWithId(features, id, k) ==>
      if dir == Up && k > 0 then r == Swap(features, k, k - 1)
      else if dir == Down && k + 1 < |features| then r == Swap(features, k, k + 1)
      else r == features
  {
    var k := FindFeature(features, id);
    if k == -1 then
      features
    else if dir == Up && k > 0 then
      Swap(features, k, k - 1)
    else if dir == Down && k < |features| - 1 then
      Swap(features, k, k + 1)
    else
      features
  }

  /** Moving up the first feature with the id, found at `k > 0`, swaps it
      with its predecessor, after which it is the first with its id at `k - 1`. */
  lemma {:induction false} UpMoves(features: seq<Feature>, id: string)
    requires FindFeature(features, id) > 0
    ensures var k := FindFeature(features, id);
      && MoveFeature(features, id, Up) == Swap(features, k, k - 1)
      && FirstWithId(Swap(features, k, k - 1), id, k - 1)
  {
    var k := FindFeature(features, id);
    var once := Swap(features, k, k - 1);
    assert forall j :: 0 <= j < k - 1 ==> once[j] == features[j];
  }

  /** Moving a feature up and then down again restores the list, unless it
      was first (then only the move down happens). Duplicate ids are allowed:
      both moves act on the first feature with the id. */
  lemma {:induction false} UpThenDownRestores(features: seq<Feature>, id: string)
    requires FindFeature(features, id) != 0
    ensures MoveFeature(MoveFeature(features, id, Up), id, Down) == features
  {
    var k := FindFeature(features, id);
    if k > 0 {
      UpMoves(features, id);
      var once := Swap(features, k, k - 1);
      assert FindFeature(once, id) == k - 1;
      assert MoveFeature(once, id, Down) == Swap(once, k - 1, k);
      SwapBack(features, k, k - 1);
    }
  }

  /** A feature that is already first does not come back: the move up does
      nothing and the move down swaps it with the second. */
  lemma FirstDoesNotReturn(features: seq<Feature>, id: string)
    requires FindFeature(features, id) == 0 && |features| > 1
    ensures MoveFeature(MoveFeature(features, id, Up), id, Down) == Swap(features, 0, 1)
  {
  }

  /** The dialog's `handleAddFeature`: the feature step's add, applied to
      the suggestions; nothing else in the form changes. */
  function AddSuggestion(form: Form, now: nat): (r: Form)
    ensures r.(suggestions := form.suggestions) == form
    ensures r.suggestions == FeatureMatrix.AddFeature(form.suggestions, now)
  {
    form.(suggestions := FeatureMatrix.AddFeature(form.suggestions, now))
  }

  /** The dialog's `handleUpdateFeature`. */
  function EditSuggestion(form: Form, id: string, e: FeatureMatrix.FeatureEdit): (r: Form)
    ensures r.(suggestions := form.suggestions) == form
    ensures r.suggestions == FeatureMatrix.UpdateFeature(form.suggestions, id, e)
  {
    form.(suggestions := FeatureMatrix.UpdateFeature(form.suggestions, id, e))
  }

  /** The dialog's `handleRemoveFeature`. */
  function RemoveSuggestion(form: Form, id: string): (r: Form)
    ensures r.(suggestions := form.suggestions) == form
    ensures r.suggestions == FeatureMatrix.RemoveFeature(form.suggestions, id)
  {
    form.(suggestions := FeatureMatrix.RemoveFeature(form.suggestions, id))
  }

  /** The dialog's `handleMoveFeature`. */
  function MoveSuggestion(form: Form, id: string, dir: Direction): (r: Form)
    ensures r.(suggestions := form.suggestions) == form
    ensures multiset(r.suggestions) == multiset(form.suggestions)
    ensures r.suggestions == MoveFeature(form.suggestions, id, dir)
  {
    form.(suggestions := MoveFeature(form.suggestions, id, dir))
  }

  /** How the review dialog's save ends: nothing to save, a validation toast,
      or the dialog closed with the edited project handed on and a success
      toast. */
  datatype SaveOutcome =
    | Ignored
    | Invalid(notice: Notice)
    | Saved(form: Form, project: Project, notice: Notice)

  const NoGoal := Notice("Validation Error", "At least one goal is required", Destructive)
  const NoReference := Notice("Validation Error", "At least one reference is required", Destructive)
  const UnnamedFeature := Notice("Validation Error",
    "All features must have a name and description", Destructive)
  const Initialized := Notice("Project Initialized",
    "CCD project has been initialized successfully", Default)

  /** The save check on features: `!feature.name || !feature.description`,
      i.e. empty strings only, with no trimming. */
  predicate HasEmptyField(f: Feature) {
    f.name == "" || f.description == ""
  }

  /** `handleSaveProject`: goals are checked first, then references, then
      the dialog's features. */
  function Save(form: Form): (r: SaveOutcome)
    ensures form.edited.None? <==> r == Ignored
    ensures form.edited.Some? && form.edited.value.goals == [] ==> r == Invalid(NoGoal)
    ensures form.edited.Some? && form.edited.value.goals != [] && form.edited.value.references == [] ==>
      r == Invalid(NoReference)
    ensures form.edited.Some? && form.edited.value.goals != [] && form.edited.value.references != [] ==>
      ((exists f :: f in form.suggestions && HasEmptyField(f)) <==> r == Invalid(UnnamedFeature))
    ensures r.Saved? <==>
      && form.edited.Some? && form.edited.value.goals != [] && form.edited.value.references != []
      && forall f :: f in form.suggestions ==> !HasEmptyField(f)
    ensures r.Saved? ==>
      r.project == form.edited.value && r.form == form.(reviewOpen := false) && r.notice == Initialized
  {
    match form.edited
    case None => Ignored
    case Some(p) =>
      if |p.goals| == 0 then
        Invalid(NoGoal)
      else if |p.references| == 0 then
        Invalid(NoReference)
      else if |Filter(form.suggestions, HasEmptyField)| > 0 then
        Invalid(UnnamedFeature)
      else
        Saved(form.(reviewOpen := false), p, Initialized)
  }

  /** The dialog's save check is weaker than the feature step's: it tests for
      empty fields without trimming, so a feature whose name is only white
      space passes it although the feature step would not count it complete.
      The wizard discards the dialog's features on a save anyway
      (`Wizard.ChooseAfterSave`). */
  lemma BlankNamePassesSave(f: Feature)
    requires f.name == " " && f.description != ""
    ensures !HasEmptyField(f)
    ensures !FeatureMatrix.IsComplete(f)
  {
    assert IsBlank(f.name);
  }

  /** A feature added in the dialog and left blank stops an otherwise valid
      save with the feature toast. */
  lemma AddedSuggestionBlocksSave(form: Form, now: nat)
    requires form.edited.Some? && form.edited.value.goals != [] && form.edited.value.references != []
    ensures Save(AddSuggestion(form, now)) == Invalid(UnnamedFeature)
  {
    var added := AddSuggestion(form, now);
    assert HasEmptyField(added.suggestions[|form.suggestions|]);
  }

  /** The badge colours keyed by a reference title's first word. */
  const ColorKeys: seq<string> := ["LegalZoom", "DoNotPay", "Clio", "CCD", "Competitor"]
  const Colors: seq<string> := ["blue", "green", "purple", "red", "orange"]

  /** `getReferenceColor`: the colour for the first word of the title, gray
      for any other word. */
  function ReferenceColor(r: Reference): (c: string)
    ensures FirstWord(r.title) !in ColorKeys <==> c == "gray"
    ensures forall i :: 0 <= i < |ColorKeys| && FirstWord(r.title) == ColorKeys[i] ==> c == Colors[i]
  {
    var name := FirstWord(r.title);
    if name == "LegalZoom" then "blue"
    else if name == "DoNotPay" then "green"
    else if name == "Clio" then "purple"
    else if name == "CCD" then "red"
    else if name == "Competitor" then "orange"
    else "gray"
  }

  /** The first word of a title is the text before its first space. */
  lemma {:induction false} FirstWordOf(word: string, rest: string)
    requires ' ' !in word
    ensures FirstWord(word + " " + rest) == word
    ensures FirstWord(word) == word
    decreases |word|
  {
    if word != [] {
      assert (word + " " + rest)[1..] == word[1..] + " " + rest;
      FirstWordOf(word[1..], rest);
      assert [word[0]] + word[1..] == word;
    } else {
      assert (word + " " + rest)[0] == ' ';
    }
  }

  /** Only the first word of a title decides the colour. */
  lemma ColorByFirstWord(r: Reference, word: string, rest: string)
    requires ' ' !in word && r.title == word + " " + rest
    ensures ReferenceColor(r) == ReferenceColor(r.(title := word))
  {
    FirstWordOf(word, rest);
  }
}
