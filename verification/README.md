# Project initialization wizard, modelled in Dafny

This project models the project-initialization wizard of the Ref Curator
demo. The wizard renders four steps (numbered 2 to 5 in its state):

1. **Project step.** The project comes either as the current project or
   from a searchable selection form. The form has a review dialog that
   edits the project's name, goals and suggested features.
2. **Feature matrix.** Features are added, edited and removed. "Continue"
   drops incomplete features or blocks.
3. **User-flow builder.** User flows are kept per feature, and competitor
   references can be attached to them.
4. **Summary.** It only displays the result and offers "Back".

Two components that are not part of those steps are modelled as well:

- the initialization tracker: seven phases, a progress bar, a reset, and a
  table that follows the wizard's step. The wizard's only mount of it is
  commented out, so it is modelled on its own;
- the stand-alone project creation form.

Every component is a pure state machine over immutable datatypes. Each
handler is a function from the component's state, and the user's input, to
the new state and the toast it shows. `Date.now()` is a `now: nat`
parameter. JavaScript's string operations are written out in `Text`:

- `toLowerCase` on ASCII letters;
- `includes`;
- `trim` with the ECMA-262 white-space set;
- `split(" ")[0]`.

The array operations are written out in `Seqs`: `filter`, `findIndex`, an
element swap and `splice(i, 1)`.

Modules, by file:

- `text.dfy` (`Text`), `seqs.dfy` (`Seqs`): the string and array
  primitives, each with a contract that states its result. `includes` is
  also proved equal to an independent definition of "occurs at some
  index", and `trim` to "all white space" for the empty-result test.
- `entities.dfy` (`Entities`): projects, references, features, user flows,
  toasts. Also the outcome of a "continue" button: blocked with a toast, or
  proceed with the committed list.
- `suggestions.dfy` (`Suggestions`): the three keyword rules that propose
  features from a project's goals.
- `feature_matrix.dfy` (`FeatureMatrix`), `user_flows.dfy` (`UserFlows`),
  `selection_form.dfy` (`SelectionForm`), `creation_form.dfy`
  (`CreationForm`): one module per form component.
- `wizard.dfy` (`Wizard`): the step counter and the state the wizard passes
  between the builders. It has one `Dispatch` over every action the
  rendered step offers, and an invariant that every dispatch keeps.
- `init_flow.dfy` (`InitFlow`): the initialization tracker, which is not
  connected to the wizard.
- `mock_projects.dfy` (`MockProjects`): the two built-in projects and the
  suggestions each gets.

## Model

| member | source | states |
|---|---|---|
| Text.LowerCase | components/project-initialization-wizard.tsx:123 | lower-casing keeps the length, maps each character by itself, and leaves no upper-case letter |
| Text.IncludesIffOccurs | components/project-selection-form.tsx:40 | the left-to-right `includes` scan succeeds exactly when the needle occurs at some index |
| Text.TrimEmptyIffBlank | components/feature-matrix-builder.tsx:44 | a string trims to "" exactly when every character is ECMA white space |
| Text.Trim | components/feature-matrix-builder.tsx:44 | `trim()` returns the part of the text between a white-space prefix and a white-space suffix, starting and ending on a non-space character |
| Text.TrimmedFromUnique | components/feature-matrix-builder.tsx:44 | only one string is such a slice, so the contract of `Trim` determines its result |
| Text.DecimalInjective | components/feature-matrix-builder.tsx:22 | different timestamps print as different digit strings |
| Text.FirstWord | components/project-selection-form.tsx:220 | `split(" ")[0]` is a prefix with no space, followed in the title by a space or by nothing |
| Entities.HasTextIsTrimTest | components/user-flow-builder.tsx:110 | the "has text" test the forms use agrees with `trim() !== ""` on every string |
| Seqs.Filter | components/feature-matrix-builder.tsx:33 | filter keeps exactly the elements that pass, in order, and keeps the whole list when all pass |
| Seqs.FilterCount | components/feature-matrix-builder.tsx:33 | filter keeps each passing element as many times as the list has it, and no other element |
| Seqs.FilterConcat | components/feature-matrix-builder.tsx:28 | filtering a list with an appended element filters the two parts separately |
| Seqs.FindIndex | components/project-selection-form.tsx:155 | findIndex gives the first index that passes, and gives -1 exactly when none passes |
| Seqs.Swap | components/project-selection-form.tsx:160-166 | the destructuring swap exchanges the two positions, leaves every other position alone, and is a permutation |
| Seqs.SwapBack | components/project-selection-form.tsx:160-166 | swapping two positions and swapping back restores the list |
| Seqs.RemoveAt | components/project-creation-form.tsx:25-29 | `splice(i, 1)` shifts the later elements down by one and removes nothing past the end |
| Suggestions.AnyGoalIffMentions | components/project-initialization-wizard.tsx:123 | the `some`/`includes` scan over goals fires exactly when some keyword occurs in some lower-cased goal |
| Suggestions.FromGoalsIdsDistinct | components/project-initialization-wizard.tsx:124-152 | the ids generated in one call are pairwise distinct, even though they share one timestamp |
| Suggestions.Suggest | components/project-initialization-wizard.tsx:118-156 | no project gives no features; otherwise each of the three features is present exactly when its keywords are mentioned; the rule order is kept; every feature is system-suggested with unique ids |
| Suggestions.SuggestNone | components/project-initialization-wizard.tsx:118-156 | goals that mention no keyword get no features |
| Suggestions.SuggestAll | components/project-initialization-wizard.tsx:118-156 | goals that trigger every rule get all three features, in rule order |
| MockProjects.LetsSolveItGetsAll | components/project-initialization-wizard.tsx:65-92 | "Let's Solve It" triggers all three rules, so a wizard opened on it starts with all three features |
| MockProjects.ClientPortalGetsNone | components/project-initialization-wizard.tsx:94-114 | no "Client Portal Redesign" goal triggers a rule, so choosing it gives an empty feature list |
| FeatureMatrix.NewFeatureId | components/feature-matrix-builder.tsx:22 | the id of an added feature is `feature-` followed by digits only |
| FeatureMatrix.NewFeatureIdsDiffer | components/feature-matrix-builder.tsx:22 | features added at different times get different ids |
| FeatureMatrix.IsCompleteIsTrimTest | components/feature-matrix-builder.tsx:44 | a feature is complete exactly when its name and description are both non-empty after `trim()` |
| FeatureMatrix.AddFeature | components/feature-matrix-builder.tsx:20-30 | appends exactly one blank, medium-priority feature with id `feature-<now>` and leaves the rest untouched |
| FeatureMatrix.RemoveFeature | components/feature-matrix-builder.tsx:32-34 | keeps exactly the features with another id, each as many times as before, in order; an unknown id changes nothing |
| FeatureMatrix.UpdateFeature | components/feature-matrix-builder.tsx:37-39 | edits exactly the named field of the features with the id and nothing else |
| FeatureMatrix.Next | components/feature-matrix-builder.tsx:42-61 | blocks with its toast exactly when no feature is complete; otherwise commits exactly the complete features, each as many times as before, in order, and reissues the list exactly when one was dropped |
| FeatureMatrix.RemoveUndoesAdd | components/feature-matrix-builder.tsx:20-34 | removing a feature just added, under a fresh id, gives back the original list |
| FeatureMatrix.LastEditWins | components/feature-matrix-builder.tsx:37-39 | two edits of the same field leave only the second |
| FeatureMatrix.NextIdempotent | components/feature-matrix-builder.tsx:42-61 | continuing again with the committed list proceeds with that list unchanged |
| FeatureMatrix.AllCompleteProceeds | components/feature-matrix-builder.tsx:42-61 | a non-empty list of complete features passes without being reissued |
| UserFlows.NewFlowId | components/user-flow-builder.tsx:46 | the id of an added flow is `flow-` followed by digits only |
| UserFlows.NewFlowIdsDiffer | components/user-flow-builder.tsx:46 | flows added at different times get different ids |
| UserFlows.IsCompleteIsTrimTest | components/user-flow-builder.tsx:110 | a flow is complete exactly when its name and description are both non-empty after `trim()` |
| UserFlows.FindFlow | components/user-flow-builder.tsx:76 | `find` by id gives the first flow with the id, or none exactly when no flow has it |
| UserFlows.Shown | components/user-flow-builder.tsx:39 | lists exactly the flows of the selected feature, each as many times as before, in order |
| UserFlows.AddFlow | components/user-flow-builder.tsx:42-54 | with no feature selected (null or "") nothing changes; otherwise exactly one blank flow of that feature is appended |
| UserFlows.RemoveFlow | components/user-flow-builder.tsx:57-59 | keeps exactly the flows with another id, each as many times as before, in order |
| UserFlows.UpdateFlow | components/user-flow-builder.tsx:62-64 | edits exactly the named field of the flows with the id and nothing else |
| UserFlows.Attach | components/user-flow-builder.tsx:73-93 | does nothing without an open flow or with an unknown flow; reports a duplicate and changes nothing if the first matching flow has the reference already; otherwise appends the reference to that flow's list on every flow with the id |
| UserFlows.Detach | components/user-flow-builder.tsx:96-105 | an unknown flow changes nothing; the flows with the id keep their id, feature, name and description and get the found flow's references minus those with the reference id, in order; other flows are untouched |
| UserFlows.Next | components/user-flow-builder.tsx:108-140 | blocks when no flow is complete, or when a complete flow has no reference, with the matching toast; otherwise commits exactly the complete flows, each as many times as before, all referenced, and reissues exactly when one was dropped |
| UserFlows.AddShowsLast | components/user-flow-builder.tsx:39-54 | a flow added for the selected feature shows up last in that feature's list |
| UserFlows.RemoveUndoesAdd | components/user-flow-builder.tsx:42-59 | removing the flow just added, under a fresh id, restores the flows |
| UserFlows.AttachIdempotent | components/user-flow-builder.tsx:73-93 | a second attach of the same reference changes nothing and reports the duplicate |
| UserFlows.AttachKeepsDistinct | components/user-flow-builder.tsx:79-90 | attaching never gives a flow two references with the same id |
| UserFlows.DetachKeepsDistinct | components/user-flow-builder.tsx:96-105 | detaching keeps each flow's reference ids distinct |
| UserFlows.DetachUndoesAttach | components/user-flow-builder.tsx:73-105 | with unique flow ids, detaching the reference just attached restores the flows |
| UserFlows.BlankFlowDropped | components/user-flow-builder.tsx:108-140 | an incomplete flow never blocks and is never committed; it only makes the step reissue the list |
| UserFlows.UnreferencedBlocks | components/user-flow-builder.tsx:122-131 | any list holding a complete flow without references blocks with the warning toast |
| UserFlows.AttachUnblocks | components/user-flow-builder.tsx:73-140 | attaching a reference to a lone complete, unreferenced flow lets the step continue with it |
| SelectionForm.Initial | components/project-selection-form.tsx:32-37 | the form starts with an empty search, nothing picked, the dialog closed and no suggestions |
| SelectionForm.Filtered | components/project-selection-form.tsx:40 | lists exactly the projects whose lower-cased name includes the lower-cased term, each as many times as before, in order |
| SelectionForm.EmptySearchShowsAll | components/project-selection-form.tsx:33-40 | the initial empty search lists every project |
| SelectionForm.SearchIgnoresCase | components/project-selection-form.tsx:40 | lower-casing the term does not change the list |
| SelectionForm.LongerSearchNarrows | components/project-selection-form.tsx:40 | extending the term only removes projects from the list |
| SelectionForm.Pick | components/project-selection-form.tsx:247 | the radio group marks a project and changes nothing else |
| SelectionForm.FindProject | components/project-selection-form.tsx:45 | `find` by id gives the first project with the id, or none exactly when no project has it |
| SelectionForm.Select | components/project-selection-form.tsx:43-93 | marks the id; for a known project opens the review on that project with its suggestions; an unknown id changes nothing else |
| SelectionForm.CloseReview | components/project-selection-form.tsx:296 | closing the dialog keeps every edit |
| SelectionForm.EditName | components/project-selection-form.tsx:309 | the name input changes only the edited project's name, and nothing without an edited project |
| SelectionForm.AddGoal | components/project-selection-form.tsx:96-103 | appends one empty goal to the edited project and changes nothing else |
| SelectionForm.UpdateGoal | components/project-selection-form.tsx:106-115 | replaces the goal at the index; the edited project's id, name and references and the rest of the form stay as they were |
| SelectionForm.RemoveGoal | components/project-selection-form.tsx:118-127 | removes the goal at the index, per `splice`; the edited project's id, name and references and the rest of the form stay as they were |
| SelectionForm.GoalRemoveOffered | components/project-selection-form.tsx:330-334 | a goal's remove button is enabled only on a shown row while the project has two or more goals |
| SelectionForm.OfferedRemoveKeepsGoal | components/project-selection-form.tsx:330-334 | an enabled goal removal takes out exactly one goal and leaves at least one |
| SelectionForm.RemoveUndoesAddGoal | components/project-selection-form.tsx:96-127 | removing the goal just added restores the form |
| SelectionForm.FindFeature | components/project-selection-form.tsx:155-156 | gives -1 exactly when no feature has the id, and otherwise the unique first index with it |
| SelectionForm.MoveFeature | components/project-selection-form.tsx:154-169 | a permutation that swaps the first feature with the id with its neighbour in the given direction, and moves nothing at either end or for an unknown id |
| SelectionForm.UpMoves | components/project-selection-form.tsx:154-162 | moving up the first feature with the id swaps it with its predecessor, after which it is the first with its id one place earlier |
| SelectionForm.UpThenDownRestores | components/project-selection-form.tsx:154-169 | moving a feature up and then down restores the list unless it was first, duplicate ids included |
| SelectionForm.FirstDoesNotReturn | components/project-selection-form.tsx:154-169 | a feature already first is not restored: the move up does nothing and the move down swaps it with the second |
| SelectionForm.AddSuggestion | components/project-selection-form.tsx:129-138 | the dialog's add is the feature step's add applied to the suggestions; nothing else in the form changes |
| SelectionForm.EditSuggestion | components/project-selection-form.tsx:141-146 | the dialog's edit is the feature step's edit applied to the suggestions; nothing else in the form changes |
| SelectionForm.RemoveSuggestion | components/project-selection-form.tsx:149-151 | the dialog's remove is the feature step's remove applied to the suggestions; nothing else in the form changes |
| SelectionForm.MoveSuggestion | components/project-selection-form.tsx:154-169 | the dialog's move permutes the suggestions as `MoveFeature` does; nothing else in the form changes |
| SelectionForm.AddedSuggestionBlocksSave | components/project-selection-form.tsx:129-203 | a feature added in the dialog and left blank stops an otherwise valid save with the feature toast |
| SelectionForm.Save | components/project-selection-form.tsx:172-216 | checks goals, then references, then features with an empty name or description, each with its toast; saves exactly when all pass, closing the dialog and handing on the edited project |
| SelectionForm.BlankNamePassesSave | components/project-selection-form.tsx:195 | a feature named " " passes the dialog's untrimmed save check although the feature step's trimmed test would not count it complete |
| SelectionForm.ReferenceColor | components/project-selection-form.tsx:24-30 | the badge is gray exactly when the title's first word is not a key, and otherwise the key's colour |
| SelectionForm.ColorByFirstWord | components/project-selection-form.tsx:219-222 | only the first word of a title decides its colour |
| CreationForm.StartSubmit | components/project-creation-form.tsx:53-78 | a blank name blocks first, then the absence of any goal with text; otherwise the save starts; the references are never checked |
| CreationForm.SubmitIgnoresReferences | components/project-creation-form.tsx:66-75 | the references never decide whether a submit is accepted |
| CreationForm.Offered | components/project-creation-form.tsx:129-165 | an offered remove always leaves a row in its list; submit is offered only while no save runs, and the end of the save only while one does |
| CreationForm.Step | components/project-creation-form.tsx:21-103 | each offered action changes only its own field or list: add appends "", remove splices out that row, change replaces that row, the name input sets the name; the end of the save resets the form with the success toast |
| CreationForm.InitialValid | components/project-creation-form.tsx:16-18 | a fresh form shows one row in each list |
| CreationForm.StepKeepsRows | components/project-creation-form.tsx:129-153 | since remove buttons are shown only while a list has two rows, every offered action keeps at least one row in each list |
| CreationForm.SubmitStartsSave | components/project-creation-form.tsx:78-165 | an accepted submit disables the submit button until the save ends |
| CreationForm.EditsDuringSaveLost | components/project-creation-form.tsx:91-93 | anything typed while the save runs is discarded when the form resets |
| Wizard.Mount | components/user-flow-builder.tsx:33-36 | the flow builder mounts with the first feature listed (none without features) and the dialog closed |
| Wizard.Offered | components/project-initialization-wizard.tsx:200-276 | actions exist only at the rendered steps 2-5; the project step offers only continue or choose, the summary only back; the dialog offers only the selected project's references |
| Wizard.DialogReferences | components/project-initialization-wizard.tsx:252 | the dialog lists the selected project's references, or none without a selected project |
| Wizard.AddedIdNotSuggested | components/feature-matrix-builder.tsx:22 | a feature added by hand never gets the id of a suggested feature, whatever the two timestamps |
| Wizard.Initial | components/project-initialization-wizard.tsx:51-58 | the wizard starts at step 2 with the current project selected, its suggestions as features, and no flows |
| Wizard.Dispatch | components/project-initialization-wizard.tsx:159-276 | back and continue move one step, and going back to the flows remounts the flow builder; choosing a project recomputes the features and is the only action that changes the selected project; each step's continue advances exactly when its check passes, and entering the flows remounts the builder; a toast leaves the state unchanged; only the feature actions change the features and only the flow actions change the flows |
| Wizard.DispatchApplies | components/project-initialization-wizard.tsx:169-176 | each feature action applies the feature matrix's operation to the features, each flow action the flow builder's operation to the flows or its own part of the builder's state, and nothing else changes |
| Wizard.AttachStep | components/user-flow-builder.tsx:73-93 | the dialog's attach shows the flow builder's toast and then changes nothing; on a known flow without a toast it stores the attach result and closes the dialog; an unset or unknown flow changes nothing |
| Wizard.DispatchKeepsInv | components/project-initialization-wizard.tsx:180-276 | every offered action keeps the step in 2..5, keeps only complete features from step 4 on and only complete, referenced flows at step 5, and keeps reference ids distinct |
| Wizard.InitialInv | components/project-initialization-wizard.tsx:51-58 | the initial wizard satisfies the invariant |
| Wizard.BackThenNextFromFlows | components/project-initialization-wizard.tsx:184-186 | going back from the flow step and continuing returns there with the same features and no toast |
| Wizard.BackThenNextFromSummary | components/project-initialization-wizard.tsx:184-186 | going back from the summary and continuing returns there with the same flows and no toast |
| Wizard.RemovedFeatureLeavesFlows | components/project-initialization-wizard.tsx:170-173 | removing a feature keeps its flows, which then name no feature |
| Wizard.ChooseAfterSave | components/project-initialization-wizard.tsx:159-167 | the features edited in the selection dialog are replaced by fresh suggestions for the saved project; the flows are kept |
| InitFlow.Sync | components/project-initialization-flow.tsx:73-104 | wizard step 1 clears the tracker; steps 2-5 mark the phases up to the synced phase, point at it and show its share of seven rounded down; any other step changes nothing |
| InitFlow.Reset | components/project-initialization-flow.tsx:129-133 | clears every phase and returns to step 0 with zero progress |
| InitFlow.Start | components/project-initialization-flow.tsx:106-127 | a run already begun does nothing; otherwise after k phases exactly phases 1..k are newly done, the bar shows round(100k/n), processing ends afterwards, and a listener hears of phase 7 |
| InitFlow.ControlOf | components/project-initialization-flow.tsx:167-177 | shows Start (enabled only idle at wizard step ≤ 1) at step 0, Reset past the last phase, otherwise the disabled "Processing k of n" label |
| InitFlow.RunFromRest | components/project-initialization-flow.tsx:106-127 | a run from rest completes every phase, ends at step 8 with 100% and the reset button; the bar never moves back and reaches 100 only at the end |
| InitFlow.InitialInv | components/project-initialization-flow.tsx:23-70 | the fresh tracker is well formed and offers an enabled start button at wizard step 1 |
| InitFlow.SyncKeepsInv | components/project-initialization-flow.tsx:73-104 | the sync keeps the tracker well formed |
| InitFlow.ResetReenablesStart | components/project-initialization-flow.tsx:129-133 | after a reset the start button is enabled again at wizard step 1 |
| InitFlow.SyncOneIsReset | components/project-initialization-flow.tsx:75-79 | the sync at wizard step 1 does exactly what the reset button does |
| InitFlow.Percent | components/project-initialization-flow.tsx:118 | `Math.round(100·k/n)`: the shown percentage is within half a point of the exact share, with a tie rounded up |
| InitFlow.PercentMonotone | components/project-initialization-flow.tsx:118 | more phases done never shows a smaller percentage |
| InitFlow.FullOnlyAtEnd | components/project-initialization-flow.tsx:118 | with seven phases the bar shows 100 exactly when all seven are done |
| InitFlow.SyncLagsRun | components/project-initialization-flow.tsx:85-99 | the sync table shows 42 and 85 where a run shows 43 and 86 for the same phases |

## Behaviour of note

- Choosing a project (wizard.tsx:159-167) recomputes the features and keeps
  `userFlows` as they were.
- Removing a feature leaves its flows in place, pointing at a feature that
  no longer exists (`Wizard.RemovedFeatureLeavesFlows`).
- The dialog's save check (project-selection-form.tsx:195) tests for empty
  strings without trimming, so a feature whose name is only spaces gets
  through it (`SelectionForm.BlankNamePassesSave`). The save hands on only
  the edited project, and the wizard then recomputes the features from its
  goals, so none of the dialog's features reach the feature step
  (`Wizard.ChooseAfterSave`).
- The sync table sets the progress to 14, 42, 57 and 85, which is the
  share of seven phases rounded down. A run shows `Math.round(100·k/7)`,
  which gives 43 and 86 for phases 3 and 6. The sync leaves `currentStep`
  on the last phase it marked; a run moves on to the next phase
  (`InitFlow.SyncLagsRun`).

## Left out

- SelectionForm.RemoveGoal: is defined for every index and may empty the
  goal list. In the program the button is disabled at one goal
  (project-selection-form.tsx:334), and both built-in projects have goals,
  so the dialog never reaches `Save`'s no-goal toast. The guard is stated
  separately as `SelectionForm.GoalRemoveOffered`, with
  `SelectionForm.OfferedRemoveKeepsGoal` proving that an enabled removal
  keeps a goal.
- Wizard.Offered: allows more than the page renders. At the flow step it
  allows remove, edit, open-dialog and detach on any flow id, where the page
  shows those buttons only for the picked feature's flows and their
  references (user-flow-builder.tsx:185-221). It also allows the step's
  other actions while the modal dialog is open (user-flow-builder.tsx:276).
  Every property proved for all offered actions therefore also holds for
  the rendered ones.
- Rendering is not modelled: JSX layout, styling, icons, badges other than
  their colour, and dialog animation. Which actions the wizard and the
  creation form offer is kept, over-approximated by their `Offered`
  functions; the review dialog's only disabled button is covered by
  `SelectionForm.GoalRemoveOffered`.
- Timers and `await` are not modelled. The one-second pauses of a run and
  the 1.5-second simulated save are dropped.
  - `InitFlow.Start` is one atomic pass that returns its intermediate
    states as a trace, so a sync cannot interleave with a run.
  - The creation form's save is split into `Submit` and `SaveDone`. Its
    `catch` branch cannot be reached, because the simulated save never
    fails.
- `Date.now()` becomes the `now` parameter. One handler's calls all see the
  same value. Two calls may see the same value, so ids are not assumed
  globally unique. Lemmas that need a fresh id require one. Ids made at
  different times do differ (`FeatureMatrix.NewFeatureIdsDiffer`,
  `UserFlows.NewFlowIdsDiffer`).
- `Text.LowerCase` lower-cases only ASCII letters. JavaScript's full
  Unicode case mapping is not modelled.
- `InitFlow.Percent` computes `Math.round` in exact rational arithmetic.
  Floating-point rounding error is not modelled.
- `Entities.HasText` is defined as "not all white space" rather than as
  `Trim(s) != ""`. `Entities.HasTextIsTrimTest` proves the two agree.
- The wizard's `initializationProgress` state is not modelled, nor is
  `handleInitializationStepComplete` (wizard.tsx:189-197). Their only use is
  commented out (wizard.tsx:219-225), so nothing reaches them.
- `handleFeaturesUpdate` and `handleUserFlowsUpdate` are stub forwarders.
  They are modelled as plain assignments of the new list.
- The summary and details views are not modelled: components/project-summary.tsx
  and components/project-details-view.tsx. They display state; only the
  details view's "Continue to Features" button is kept, as
  `Wizard.Continue`.
- Buttons that only show a toast are not modelled: the summary's "Generate
  Documentation" and "Save to CCD Workspace", the "Reference Linked" badge
  action in the review dialog (project-selection-form.tsx:445) and the "New
  Project" button (project-selection-form.tsx:231). None of them changes
  any state.
- The home page, app/page.tsx, is not modelled beyond the project it passes
  in, which is `MockProjects.LetsSolveIt`.
- Fields the TypeScript leaves undefined are filled with defaults. A new
  feature from `handleAddFeature` gets `suggestedBySystem = false` and empty
  `linkedReferences`.
- `SelectionForm.UpdateGoal` and `CreationForm.ChangeGoal` require an index
  inside the list. JavaScript would grow the array with holes, but the
  inputs exist only for the rows shown.
- `SelectionForm.ReferenceColor` looks up only the five own keys of
  `referenceColors`. A first word such as `constructor`, which JavaScript
  would find on the object prototype, is not modelled.
- The tracker is not connected to the wizard: its only mount
  (wizard.tsx:219-225) is commented out. `InitFlow` therefore models it on
  its own, with the wizard step as a parameter. Step 1, which the wizard
  never reaches because it starts at step 2, is modelled in `InitFlow.Sync`.
