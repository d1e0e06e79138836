/** The records the wizard passes between its steps: a Ref Curator project
    with its goals and competitor references, the features proposed for the
    new project, and the user flows defined per feature. Optional fields of
    the TypeScript types are modelled as follows: an absent
    `suggestedBySystem` is `false`, absent `insights` or `linkedReferences`
    are empty, an absent `url` is `None`. */
module Entities {
  import opened Text

  datatype Option<+T> = None | Some(value: T)

  datatype Reference = Reference(
    id: string,
    title: string,
    description: string,
    url: Option<string>,
    insights: seq<string>)

  datatype Project = Project(
    id: string,
    name: string,
    goals: seq<string>,
    references: seq<Reference>)

  datatype Priority = High | Medium | Low

  datatype Feature = Feature(
    id: string,
    name: string,
    description: string,
    priority: Priority,
    suggestedBySystem: bool,
    linkedReferences: seq<string>)

  datatype UserFlow = UserFlow(
    id: string,
    name: string,
    description: string,
    featureId: string,
    references: seq<Reference>)

  /** A toast: its `variant` is either the default or "destructive". */
  datatype Variant = Default | Destructive
  datatype Notice = Notice(title: string, description: string, variant: Variant)

  /** The outcome of a step's "continue" button: either a blocking toast
      with nothing changed, or the list committed for the next step, with
      `reissued` telling whether the list was handed back to the wizard
      (it is only when something was dropped). */
  datatype Advance<T> = Blocked(notice: Notice) | Proceed(committed: seq<T>, reissued: bool)

  /** `value.trim() !== ""`: some character is not white space.
      `HasTextIsTrimTest` shows this is the same as trimming and comparing. */
  predicate HasText(s: string) {
    !IsBlank(s)
  }

  /** Text is present exactly when trimming leaves something. */
  lemma HasTextIsTrimTest(s: string)
    ensures HasText(s) <==> Trim(s) != ""
  {
    TrimEmptyIffBlank(s);
  }
}
