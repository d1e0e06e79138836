/** The feature step: add, remove and edit features, and the "Continue to
    User Flows" check that drops incomplete features or blocks. The same
    add/edit/remove handlers are repeated in the project review dialog. */
module FeatureMatrix {
  import opened Text
  import opened Seqs
  import opened Entities

  /** One field edit, as the form's inputs emit it (`{...f, [field]: value}`). */
  datatype FeatureEdit =
    | SetName(name: string)
    | SetDescription(description: string)
    | SetPriority(priority: Priority)

  /** `after` is `before` with exactly the field named by `e` replaced. */
  ghost predicate EditedBy(before: Feature, after: Feature, e: FeatureEdit) {
    && after.id == before.id
    && after.suggestedBySystem == before.suggestedBySystem
    && after.linkedReferences == before.linkedReferences
    && after.name == (if e.SetName? then e.name else before.name)
    && after.description == (if e.SetDescription? then e.description else before.description)
    && after.priority == (if e.SetPriority? then e.priority else before.priority)
  }

  function ApplyEdit(f: Feature, e: FeatureEdit): (r: Feature)
    ensures EditedBy(f, r, e)
  {
    match e
    case SetName(n) => f.(name := n)
    case SetDescription(d) => f.(description := d)
    case SetPriority(p) => f.(priority := p)
  }

  /** The id `handleAddFeature` gives a new feature. */
  function NewFeatureId(now: nat): (r: string)
    ensures |r| > 8 && r[..8] == "feature-"
    ensures forall i :: 8 <= i < |r| ==> IsDigit(r[i])
  {
    "feature-" + Decimal(now)
  }

  /** Features added at different times get different ids. */
  lemma NewFeatureIdsDiffer(a: nat, b: nat)
    requires a != b
    ensures NewFeatureId(a) != NewFeatureId(b)
  {
    if NewFeatureId(a) == NewFeatureId(b) {
      assert NewFeatureId(a)[8..] == Decimal(a) && NewFeatureId(b)[8..] == Decimal(b);
      DecimalInjective(a, b);
    }
  }

  /** `handleAddFeature`: appends one blank, medium-priority, user-made feature. */
  function AddFeature(features: seq<Feature>, now: nat): (r: seq<Feature>)
    ensures |r| == |features| + 1 && r[..|features|] == features
    ensures r[|features|].id == NewFeatureId(now)
    ensures r[|features|].name == "" && r[|features|].description == ""
    ensures r[|features|].priority == Medium && !r[|features|].suggestedBySystem
  {
    features + [Feature(NewFeatureId(now), "", "", Medium, false, [])]
  }

  /** `handleRemoveFeature`: drops every feature with the id, keeping the rest in order. */
  function RemoveFeature(features: seq<Feature>, id: string): (r: seq<Feature>)
    ensures forall f :: f in r <==> f in features && f.id != id
    ensures SubsequenceOf(r, features)
    ensures (forall f :: f in features ==> f.id != id) ==> r == features
    ensures forall f :: f in features ==> multiset(r)[f] == if f.id != id then multiset(features)[f] else 0
  {
    FilterCount(features, (f: Feature) => f.id != id);
    Filter(features, (f: Feature) => f.id != id)
  }

  /** `handleUpdateFeature`: edits one field of every feature with the id. */
  function UpdateFeature(features: seq<Feature>, id: string, e: FeatureEdit): (r: seq<Feature>)
    ensures |r| == |features|
    ensures forall i :: 0 <= i < |r| && features[i].id == id ==> EditedBy(features[i], r[i], e)
    ensures forall i :: 0 <= i < |r| && features[i].id != id ==> r[i] == features[i]
  {
    seq(|features|, i requires 0 <= i < |features| =>
      if features[i].id == id then ApplyEdit(features[i], e) else features[i])
  }

  /** A feature survives the continue check when its name and description
      are non-empty after trimming. */
  predicate IsComplete(f: Feature) {
    HasText(f.name) && HasText(f.description)
  }

  /** The completeness test is the handler's `trim() !== ""` on both fields. */
  lemma IsCompleteIsTrimTest(f: Feature)
    ensures IsComplete(f) <==> Trim(f.name) != "" && Trim(f.description) != ""
  {
    HasTextIsTrimTest(f.name);
    HasTextIsTrimTest(f.description);
  }

  const NoCompleteFeature := Notice("Error",
    "Please add at least one feature with name and description", Destructive)

  /** `handleNext` of the feature step. */
  function Next(features: seq<Feature>): (r: Advance<Feature>)
    ensures r.Blocked? <==> forall f :: f in features ==> !IsComplete(f)
    ensures r.Blocked? ==> r.notice == NoCompleteFeature
    ensures r.Proceed? ==> forall f :: f in r.committed <==> f in features && IsComplete(f)
    ensures r.Proceed? ==> SubsequenceOf(r.committed, features)
    ensures r.Proceed? ==> (r.reissued <==> exists f :: f in features && !IsComplete(f))
    ensures r.Proceed? && !r.reissued ==> r.committed == features
    ensures r.Proceed? ==> forall f :: f in features ==>
      multiset(r.committed)[f] == if IsComplete(f) then multiset(features)[f] else 0
  {
    var valid := Filter(features, IsComplete);
    FilterCount(features, IsComplete);
    if |valid| == 0 then
      Blocked(NoCompleteFeature)
    else
      Proceed(valid, |valid| != |features|)
  }

  /** Removing the feature just added, under an id no earlier feature has,
      gives back the original list. */
  lemma {:induction false} RemoveUndoesAdd(features: seq<Feature>, now: nat)
    requires forall f :: f in features ==> f.id != NewFeatureId(now)
    ensures RemoveFeature(AddFeature(features, now), NewFeatureId(now)) == features
  {
    var p := (f: Feature) => f.id != NewFeatureId(now);
    var added := AddFeature(features, now);
    var e := added[|features|];
    assert added == features + [e];
    FilterConcat(features, [e], p);
    assert Filter([e], p) == [];
    assert forall i :: 0 <= i < |features| ==> p(features[i]);
    assert Filter(added, p) == features;
  }

  /** Two edits of the same field leave only the second. */
  lemma {:induction false} LastEditWins(features: seq<Feature>, id: string, first: string, second: string)
    ensures UpdateFeature(UpdateFeature(features, id, SetName(first)), id, SetName(second))
      == UpdateFeature(features, id, SetName(second))
  {
    var once := UpdateFeature(features, id, SetName(second));
    var twice := UpdateFeature(UpdateFeature(features, id, SetName(first)), id, SetName(second));
    forall i | 0 <= i < |features|
      ensures twice[i] == once[i]
    {
    }
  }

  /** A non-empty list of complete features passes as it is. */
  lemma AllCompleteProceeds(features: seq<Feature>)
    requires features != [] && forall f :: f in features ==> IsComplete(f)
    ensures Next(features) == Proceed(features, false)
  {
    assert features[0] in features;
  }

  /** Continuing again right after a successful continue keeps the
      committed list as it is and hands nothing back. */
  lemma NextIdempotent(features: seq<Feature>)
    requires Next(features).Proceed?
    ensures Next(Next(features).committed) == Proceed(Next(features).committed, false)
  {
  }
}
