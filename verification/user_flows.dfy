/** The user-flow step: flows are listed per selected feature, added,
    removed and edited by id, given references from the project (at most
    one copy of each), and checked by "Continue to Summary". */
module UserFlows {
  import opened Text
  import opened Seqs
  import opened Entities

  /** One field edit (`{...flow, [field]: value}`); references are only
      replaced through attach and detach. */
  datatype FlowEdit =
    | SetName(name: string)
    | SetDescription(description: string)
    | SetReferences(references: seq<Reference>)

  /** `after` is `before` with exactly the field named by `e` replaced. */
  ghost predicate EditedBy(before: UserFlow, after: UserFlow, e: FlowEdit) {
    && after.id == before.id
    && after.featureId == before.featureId
    && after.name == (if e.SetName? then e.name else before.name)
    && after.description == (if e.SetDescription? then e.description else before.description)
    && after.references == (if e.SetReferences? then e.references else before.references)
  }

  function ApplyEdit(fl: UserFlow, e: FlowEdit): (r: UserFlow)
    ensures EditedBy(fl, r, e)
  {
    match e
    case SetName(n) => fl.(name := n)
    case SetDescription(d) => fl.(description := d)
    case SetReferences(refs) => fl.(references := refs)
  }

  /** JavaScript truthiness of an optional id: null and "" are both false. */
  predicate IsSet(id: Option<string>) {
    id.Some? && id.value != ""
  }

  /** `filteredUserFlows`: the flows of the selected feature, in order. */
  function Shown(flows: seq<UserFlow>, selected: Option<string>): (r: seq<UserFlow>)
    ensures forall fl :: fl in r <==> fl in flows && selected == Some(fl.featureId)
    ensures SubsequenceOf(r, flows)
    ensures forall fl :: fl in flows ==>
      multiset(r)[fl] == if selected == Some(fl.featureId) then multiset(flows)[fl] else 0
  {
    FilterCount(flows, (fl: UserFlow) => selected == Some(fl.featureId));
    Filter(flows, (fl: UserFlow) => selected == Some(fl.featureId))
  }

  /** The id `handleAddUserFlow` gives a new flow. */
  function NewFlowId(now: nat): (r: string)
    ensures |r| > 5 && r[..5] == "flow-"
    ensures forall i :: 5 <= i < |r| ==> IsDigit(r[i])
  {
    "flow-" + Decimal(now)
  }

  /** Flows added at different times get different ids. */
  lemma NewFlowIdsDiffer(a: nat, b: nat)
    requires a != b
    ensures NewFlowId(a) != NewFlowId(b)
  {
    if NewFlowId(a) == NewFlowId(b) {
      assert NewFlowId(a)[5..] == Decimal(a) && NewFlowId(b)[5..] == Decimal(b);
      DecimalInjective(a, b);
    }
  }

  /** `handleAddUserFlow`: with a feature selected, appends one blank flow
      of that feature; otherwise does nothing. */
  function AddFlow(flows: seq<UserFlow>, selected: Option<string>, now: nat): (r: seq<UserFlow>)
    ensures !IsSet(selected) ==> r == flows
    ensures IsSet(selected) ==> |r| == |flows| + 1 && r[..|flows|] == flows
    ensures IsSet(selected) ==>
      r[|flows|] == UserFlow(NewFlowId(now), "", "", selected.value, [])
  {
    if IsSet(selected) then flows + [UserFlow(NewFlowId(now), "", "", selected.value, [])]
    else flows
  }

  /** The test `flow.id !== id`. */
  function FlowIdIsNot(id: string): UserFlow -> bool {
    (fl: UserFlow) => fl.id != id
  }

  /** `handleRemoveUserFlow`: drops every flow with the id, keeping the rest in order. */
  function RemoveFlow(flows: seq<UserFlow>, id: string): (r: seq<UserFlow>)
    ensures forall fl :: fl in r <==> fl in flows && fl.id != id
    ensures SubsequenceOf(r, flows)
    ensures forall fl :: fl in flows ==> multiset(r)[fl] == if fl.id != id then multiset(flows)[fl] else 0
  {
    FilterCount(flows, FlowIdIsNot(id));
    Filter(flows, FlowIdIsNot(id))
  }

  /** `handleUpdateUserFlow`: edits one field of every flow with the id. */
  function UpdateFlow(flows: seq<UserFlow>, id: string, e: FlowEdit): (r: seq<UserFlow>)
    ensures |r| == |flows|
    ensures forall i :: 0 <= i < |r| && flows[i].id == id ==> EditedBy(flows[i], r[i], e)
    ensures forall i :: 0 <= i < |r| && flows[i].id != id ==> r[i] == flows[i]
  {
    seq(|flows|, i requires 0 <= i < |flows| =>
      if flows[i].id == id then ApplyEdit(flows[i], e) else flows[i])
  }

  /** `userFlows.find(flow => flow.id === id)`, as an index (-1 when absent). */
  function FindFlow(flows: seq<UserFlow>, id: string): (k: int)
    ensures -1 <= k < |flows|
    ensures k >= 0 ==> flows[k].id == id && forall j :: 0 <= j < k ==> flows[j].id != id
    ensures k == -1 <==> forall j :: 0 <= j < |flows| ==> flows[j].id != id
  {
    FindIndex(flows, (fl: UserFlow) => fl.id == id)
  }

  /** Some reference in the list has the id. */
  predicate HasReference(refs: seq<Reference>, id: string) {
    exists i :: 0 <= i < |refs| && refs[i].id == id
  }

  /** No two references in the list share an id. */
  ghost predicate DistinctIds(refs: seq<Reference>) {
    forall i, j :: 0 <= i < j < |refs| ==> refs[i].id != refs[j].id
  }

  /** Every flow's references are free of duplicate ids. */
  ghost predicate ReferencesDistinct(flows: seq<UserFlow>) {
    forall fl :: fl in flows ==> DistinctIds(fl.references)
  }

  const AlreadyAttached := Notice("Reference already attached",
    "This reference is already attached to this user flow", Destructive)

  /** `handleAttachReference` for the dialog opened on flow `current`: the
      updated flows and the toast shown, if any. */
  function Attach(flows: seq<UserFlow>, current: Option<string>, ref: Reference)
    : (r: (seq<UserFlow>, Option<Notice>))
    ensures !IsSet(current) || FindFlow(flows, current.value) < 0 ==> r == (flows, None)
    ensures IsSet(current) && FindFlow(flows, current.value) >= 0 ==>
      var first := flows[FindFlow(flows, current.value)];
      if HasReference(first.references, ref.id) then
        r == (flows, Some(AlreadyAttached))
      else
        && r.1 == None
        && |r.0| == |flows|
        && (forall i :: 0 <= i < |flows| && flows[i].id != current.value ==> r.0[i] == flows[i])
        && (forall i :: 0 <= i < |flows| && flows[i].id == current.value ==>
              EditedBy(flows[i], r.0[i], SetReferences(first.references + [ref])))
  {
    if !IsSet(current) then
      (flows, None)
    else
      var k := FindFlow(flows, current.value);
      if k < 0 then
        (flows, None)
      else if HasReference(flows[k].references, ref.id) then
        (flows, Some(AlreadyAttached))
      else
        (UpdateFlow(flows, current.value, SetReferences(flows[k].references + [ref])), None)
  }

  /** The test `ref.id !== refId`. */
  function RefIdIsNot(refId: string): Reference -> bool {
    (x: Reference) => x.id != refId
  }

  /** `handleRemoveReference`: every flow with the id gets the first such
      flow's references without the ones carrying `refId`. */
  function Detach(flows: seq<UserFlow>, flowId: string, refId: string): (r: seq<UserFlow>)
    ensures FindFlow(flows, flowId) < 0 ==> r == flows
    ensures |r| == |flows|
    ensures forall i :: 0 <= i < |flows| && flows[i].id != flowId ==> r[i] == flows[i]
    ensures forall i :: 0 <= i < |flows| && flows[i].id == flowId ==>
      && EditedBy(flows[i], r[i],
           SetReferences(Filter(flows[FindFlow(flows, flowId)].references, RefIdIsNot(refId))))
      && !HasReference(r[i].references, refId)
      && SubsequenceOf(r[i].references, flows[FindFlow(flows, flowId)].references)
      && (forall x :: x in flows[FindFlow(flows, flowId)].references && x.id != refId ==> x in r[i].references)
  {
    var k := FindFlow(flows, flowId);
    if k < 0 then
      flows
    else
      var kept := Filter(flows[k].references, RefIdIsNot(refId));
      UpdateFlow(flows, flowId, SetReferences(kept))
  }

  /** A flow survives the continue check when its name and description are
      non-empty after trimming. */
  predicate IsComplete(fl: UserFlow) {
    HasText(fl.name) && HasText(fl.description)
  }

  /** The completeness test is the handler's `trim() !== ""` on both fields. */
  lemma IsCompleteIsTrimTest(fl: UserFlow)
    ensures IsComplete(fl) <==> Trim(fl.name) != "" && Trim(fl.description) != ""
  {
    HasTextIsTrimTest(fl.name);
    HasTextIsTrimTest(fl.description);
  }

  const NoCompleteFlow := Notice("Error",
    "Please add at least one user flow with name and description", Destructive)
  const MissingReferences := Notice("Warning",
    "Some user flows don't have any references attached. Each flow should have at least one reference.",
    Destructive)

  /** How the complete flows relate to all flows, in the terms `Next` uses. */
  lemma CompleteFlows(flows: seq<UserFlow>)
    ensures var valid := Filter(flows, IsComplete);
      && (forall fl :: fl in valid <==> fl in flows && IsComplete(fl))
      && (|valid| == 0 <==> forall fl :: fl in flows ==> !IsComplete(fl))
      && ((exists i :: 0 <= i < |valid| && |valid[i].references| == 0)
          <==> exists fl :: fl in flows && IsComplete(fl) && |fl.references| == 0)
      && (|valid| != |flows| <==> exists fl :: fl in flows && !IsComplete(fl))
  {
    var valid := Filter(flows, IsComplete);
    FilterMembers(flows, IsComplete);
    if fl :| fl in flows && IsComplete(fl) && |fl.references| == 0 {
      var i :| 0 <= i < |valid| && valid[i] == fl;
    }
  }

  /** `handleNext` of the flow step. */
  function Next(flows: seq<UserFlow>): (r: Advance<UserFlow>)
    ensures r.Blocked? <==>
      (forall fl :: fl in flows ==> !IsComplete(fl))
      || (exists fl :: fl in flows && IsComplete(fl) && |fl.references| == 0)
    ensures r.Blocked? && (forall fl :: fl in flows ==> !IsComplete(fl)) ==> r.notice == NoCompleteFlow
    ensures r.Blocked? && (exists fl :: fl in flows && IsComplete(fl)) ==> r.notice == MissingReferences
    ensures r.Proceed? ==> forall fl :: fl in r.committed <==> fl in flows && IsComplete(fl)
    ensures r.Proceed? ==> forall fl :: fl in r.committed ==> |fl.references| > 0
    ensures r.Proceed? ==> SubsequenceOf(r.committed, flows)
    ensures r.Proceed? ==> (r.reissued <==> exists fl :: fl in flows && !IsComplete(fl))
    ensures r.Proceed? && !r.reissued ==> r.committed == flows
    ensures r.Proceed? ==> forall fl :: fl in flows ==>
      multiset(r.committed)[fl] == if IsComplete(fl) then multiset(flows)[fl] else 0
  {
    var valid := Filter(flows, IsComplete);
    CompleteFlows(flows);
    FilterCount(flows, IsComplete);
    if |valid| == 0 then
      Blocked(NoCompleteFlow)
    else
      if exists i :: 0 <= i < |valid| && |valid[i].references| == 0 then
        Blocked(MissingReferences)
      else
        Proceed(valid, |valid| != |flows|)
  }

  /** No two flows share an id (the ids come from distinct timestamps). */
  ghost predicate UniqueIds(flows: seq<UserFlow>) {
    forall i, j :: 0 <= i < j < |flows| ==> flows[i].id != flows[j].id
  }

  /** A flow added for the selected feature shows up last in that
      feature's list, after the flows already shown. */
  lemma {:induction false} AddShowsLast(flows: seq<UserFlow>, selected: Option<string>, now: nat)
    requires IsSet(selected)
    ensures Shown(AddFlow(flows, selected, now), selected)
      == Shown(flows, selected) + [UserFlow(NewFlowId(now), "", "", selected.value, [])]
  {
    var blankFlow := UserFlow(NewFlowId(now), "", "", selected.value, []);
    FilterConcat(flows, [blankFlow], (fl: UserFlow) => selected == Some(fl.featureId));
  }

  /** Removing the flow just added, under an id no earlier flow has, gives
      back the original list. */
  lemma {:induction false} RemoveUndoesAdd(flows: seq<UserFlow>, selected: Option<string>, now: nat)
    requires forall fl :: fl in flows ==> fl.id != NewFlowId(now)
    ensures RemoveFlow(AddFlow(flows, selected, now), NewFlowId(now)) == flows
  {
    var p := FlowIdIsNot(NewFlowId(now));
    if IsSet(selected) {
      var blankFlow := UserFlow(NewFlowId(now), "", "", selected.value, []);
      assert AddFlow(flows, selected, now) == flows + [blankFlow];
      FilterConcat(flows, [blankFlow], p);
      assert Filter([blankFlow], p) == [];
      assert Filter(flows, p) == flows;
    }
  }

  /** Attaching twice is attaching once: the second attempt changes
      nothing and reports the duplicate. */
  lemma {:induction false} AttachIdempotent(flows: seq<UserFlow>, current: Option<string>, ref: Reference)
    requires IsSet(current) && FindFlow(flows, current.value) >= 0
    ensures var once := Attach(flows, current, ref).0;
      Attach(once, current, ref) == (once, Some(AlreadyAttached))
  {
    var k := FindFlow(flows, current.value);
    var once := Attach(flows, current, ref).0;
    if !HasReference(flows[k].references, ref.id) {
      assert forall j :: 0 <= j < |flows| ==> once[j].id == flows[j].id;
      assert FindFlow(once, current.value) == k;
      var refs := once[k].references;
      assert refs[|refs| - 1] == ref;
    }
  }

  /** Attaching never puts two references with the same id on a flow. */
  lemma {:induction false} AttachKeepsDistinct(flows: seq<UserFlow>, current: Option<string>, ref: Reference)
    requires ReferencesDistinct(flows)
    ensures ReferencesDistinct(Attach(flows, current, ref).0)
  {
    var after := Attach(flows, current, ref).0;
    if IsSet(current) && FindFlow(flows, current.value) >= 0 {
      var first := flows[FindFlow(flows, current.value)];
      if !HasReference(first.references, ref.id) {
        var grown := first.references + [ref];
        assert DistinctIds(grown) by {
          forall i, j | 0 <= i < j < |grown|
            ensures grown[i].id != grown[j].id
          {
            if j == |grown| - 1 {
              assert grown[i] == first.references[i];
            }
          }
        }
        forall fl | fl in after
          ensures DistinctIds(fl.references)
        {
          var i :| 0 <= i < |after| && after[i] == fl;
          if flows[i].id == current.value {
            assert after[i].references == grown;
          } else {
            assert flows[i] in flows;
          }
        }
      }
    }
  }

  /** The first reference's id appears nowhere else in a list without duplicate ids. */
  lemma HeadIdUnique(refs: seq<Reference>)
    requires refs != [] && DistinctIds(refs)
    ensures forall x :: x in refs[1..] ==> x.id != refs[0].id
    ensures DistinctIds(refs[1..])
  {
    var tail := refs[1..];
    forall x | x in tail
      ensures x.id != refs[0].id
    {
      var m :| 0 <= m < |tail| && tail[m] == x;
      assert refs[m + 1] == x;
    }
    forall i, j | 0 <= i < j < |tail|
      ensures tail[i].id != tail[j].id
    {
      assert tail[i] == refs[i + 1] && tail[j] == refs[j + 1];
    }
  }

  /** A reference whose id the list does not have can go in front of it. */
  lemma ConsDistinct(x: Reference, rest: seq<Reference>)
    requires DistinctIds(rest) && forall y :: y in rest ==> y.id != x.id
    ensures DistinctIds([x] + rest)
  {
    var r := [x] + rest;
    forall i, j | 0 <= i < j < |r|
      ensures r[i].id != r[j].id
    {
      assert r[j] == rest[j - 1];
      if i > 0 {
        assert r[i] == rest[i - 1];
      }
    }
  }

  /** Filtering a list of references keeps their ids distinct. */
  lemma {:induction false} FilterKeepsDistinct(refs: seq<Reference>, p: Reference -> bool)
    requires DistinctIds(refs)
    ensures DistinctIds(Filter(refs, p))
    decreases |refs|
  {
    if refs != [] {
      var rest := Filter(refs[1..], p);
      HeadIdUnique(refs);
      FilterKeepsDistinct(refs[1..], p);
      if p(refs[0]) {
        assert Filter(refs, p) == [refs[0]] + rest;
        assert forall x :: x in rest ==> x in refs[1..];
        ConsDistinct(refs[0], rest);
      } else {
        assert Filter(refs, p) == rest;
      }
    }
  }

  /** Detaching never puts two references with the same id on a flow. */
  lemma {:induction false} DetachKeepsDistinct(flows: seq<UserFlow>, flowId: string, refId: string)
    requires ReferencesDistinct(flows)
    ensures ReferencesDistinct(Detach(flows, flowId, refId))
  {
    var k := FindFlow(flows, flowId);
    if k >= 0 {
      var kept := Filter(flows[k].references, RefIdIsNot(refId));
      assert flows[k] in flows;
      FilterKeepsDistinct(flows[k].references, RefIdIsNot(refId));
      var after := Detach(flows, flowId, refId);
      assert after == UpdateFlow(flows, flowId, SetReferences(kept));
      forall fl | fl in after
        ensures DistinctIds(fl.references)
      {
        var i :| 0 <= i < |after| && after[i] == fl;
        if flows[i].id != flowId {
          assert flows[i] in flows;
        }
      }
    }
  }

  /** Filtering out an id that only the appended reference carries gives
      back the references before the append. */
  lemma {:induction false} FilterOutAppended(refs: seq<Reference>, ref: Reference)
    requires !HasReference(refs, ref.id)
    ensures Filter(refs + [ref], RefIdIsNot(ref.id)) == refs
  {
    var p := RefIdIsNot(ref.id);
    FilterConcat(refs, [ref], p);
    assert Filter([ref], p) == [];
  }

  /** Editing flows keeps every flow's id, so a flow is found where it was. */
  lemma UpdateKeepsFind(flows: seq<UserFlow>, id: string, e: FlowEdit, target: string)
    ensures FindFlow(UpdateFlow(flows, id, e), target) == FindFlow(flows, target)
  {
    var after := UpdateFlow(flows, id, e);
    assert forall j :: 0 <= j < |flows| ==> after[j].id == flows[j].id;
  }

  /** With unique flow ids, detaching the reference just attached restores
      the flows. */
  lemma {:induction false} DetachUndoesAttach(flows: seq<UserFlow>, current: Option<string>, ref: Reference)
    requires UniqueIds(flows)
    requires IsSet(current) && FindFlow(flows, current.value) >= 0
    requires !HasReference(flows[FindFlow(flows, current.value)].references, ref.id)
    ensures Detach(Attach(flows, current, ref).0, current.value, ref.id) == flows
  {
    var id := current.value;
    var k := FindFlow(flows, id);
    var refs := flows[k].references;
    var once := UpdateFlow(flows, id, SetReferences(refs + [ref]));
    assert Attach(flows, current, ref).0 == once;
    UpdateKeepsFind(flows, id, SetReferences(refs + [ref]), id);
    FilterOutAppended(refs, ref);
    assert once[k].references == refs + [ref];
    var twice := UpdateFlow(once, id, SetReferences(refs));
    assert Detach(once, id, ref.id) == twice;
    forall i | 0 <= i < |flows|
      ensures twice[i] == flows[i]
    {
      if flows[i].id == id {
        assert i == k;
      }
    }
  }

  /** A flow left blank neither blocks nor is committed: it only makes the
      step hand the list back. */
  lemma {:induction false} BlankFlowDropped(flows: seq<UserFlow>, blank: UserFlow)
    requires !IsComplete(blank)
    ensures Next(flows + [blank]) ==
      if Next(flows).Proceed? then Proceed(Next(flows).committed, true) else Next(flows)
  {
    FilterConcat(flows, [blank], IsComplete);
    assert Filter([blank], IsComplete) == [];
    NextAfterDropped(flows, flows + [blank]);
  }

  /** A longer list with the same complete flows as `flows` gets the same
      verdict, and reissues when it proceeds. */
  lemma NextAfterDropped(flows: seq<UserFlow>, longer: seq<UserFlow>)
    requires Filter(longer, IsComplete) == Filter(flows, IsComplete)
    requires |longer| > |flows|
    ensures Next(longer) ==
      if Next(flows).Proceed? then Proceed(Next(flows).committed, true) else Next(flows)
  {
    assert |Filter(longer, IsComplete)| != |longer|;
  }

  /** A non-empty list of complete flows that all carry references passes as it is. */
  lemma AllCompleteProceeds(flows: seq<UserFlow>)
    requires flows != [] && forall fl :: fl in flows ==> IsComplete(fl) && fl.references != []
    ensures Next(flows) == Proceed(flows, false)
  {
    assert flows[0] in flows;
  }

  /** One complete flow without references holds the whole list back with
      the warning, whatever the other flows are. */
  lemma {:induction false} UnreferencedBlocks(flows: seq<UserFlow>, fl: UserFlow)
    requires fl in flows && IsComplete(fl) && fl.references == []
    ensures Next(flows) == Blocked(MissingReferences)
  {
  }

  /** Attaching a new reference to the only flow appends it there. */
  lemma AttachLone(fl: UserFlow, ref: Reference)
    requires fl.id != "" && !HasReference(fl.references, ref.id)
    ensures Attach([fl], Some(fl.id), ref) == ([fl.(references := fl.references + [ref])], None)
  {
    assert FindFlow([fl], fl.id) == 0;
    var r := Attach([fl], Some(fl.id), ref);
    assert EditedBy(fl, r.0[0], SetReferences(fl.references + [ref]));
    assert r.0[0] == fl.(references := fl.references + [ref]);
    assert r.0 == [r.0[0]];
  }

  /** Attaching any reference to a lone complete flow without references
      lets the step continue with that flow. */
  lemma {:induction false} AttachUnblocks(fl: UserFlow, ref: Reference)
    requires IsComplete(fl) && fl.references == [] && fl.id != ""
    ensures var after := Attach([fl], Some(fl.id), ref).0;
      Next(after) == Proceed(after, false)
  {
    AttachLone(fl, ref);
    var attached := fl.(references := [ref]);
    assert fl.references + [ref] == [ref];
    assert IsComplete(attached) by {
      assert attached.name == fl.name && attached.description == fl.description;
    }
    assert forall x :: x in [attached] ==> x == attached;
    AllCompleteProceeds([attached]);
  }
}
