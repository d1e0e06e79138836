/** The two Ref Curator projects the selection form lists when the wizard
    runs without a current project (the first is also the current project
    the home page passes in), and the suggestions each one gets. */
module MockProjects {
  import opened Text
  import opened Entities
  import opened Suggestions
  import Wizard

  const LetsSolveItGoals: seq<string> :=
    [ "Reduce legal dispute resolution time/cost by 70% using AI.",
      "Achieve 95% accuracy in document analysis.",
      "Provide 24/7 access to legal assistance." ]

  const LetsSolveIt := Project("1", "Let's Solve It", LetsSolveItGoals,
    [ Reference("ref1", "LegalZoom Analysis", "Review of LegalZoom's document automation", None,
        ["Strong document templates", "Weak personalization", "Limited AI capabilities"]),
      Reference("ref2", "DoNotPay Review", "Analysis of DoNotPay's chatbot functionality", None,
        ["Simple user interface", "Limited to basic legal issues", "Chatbot has knowledge gaps"]),
      Reference("ref3", "Clio Evaluation", "Evaluation of Clio's analytics features", None,
        ["Comprehensive case tracking", "Poor document analysis", "Lacks AI-powered insights"]) ])

  const ClientPortalGoals: seq<string> :=
    [ "Improve client onboarding experience",
      "Streamline document sharing",
      "Add real-time collaboration tools" ]

  const ClientPortal := Project("2", "Client Portal Redesign", ClientPortalGoals,
    [ Reference("ref4", "Competitor portal analysis", "Review of top 5 competitor client portals", None,
        [ "Most offer single sign-on",
          "Document versioning is standard",
          "Real-time chat is becoming common" ]) ])

  const Projects: seq<Project> := [LetsSolveIt, ClientPortal]

  /** The first "Let's Solve It" goal opens with "Reduce legal dispute resolution". */
  lemma FirstGoalHead(s: string)
    requires s == "Reduce legal dispute resolution time/cost by 70% using AI."
    ensures s[..31] == "Reduce legal dispute resolution"
  {
  }

  /** "dispute" starts at index 13 of "Reduce legal dispute resolution". */
  lemma {:induction false} DisputeInHead(h: string)
    requires h == "Reduce legal dispute resolution"
    ensures MatchesAt(h, "dispute", 13)
  {
    assert h == "Reduce legal " + "dispute" + " resolution";
    MatchInMiddle("Reduce legal ", "dispute", " resolution");
  }

  /** "dispute" starts at index 13 of the first "Let's Solve It" goal. */
  lemma {:induction false} DisputeInFirstGoal(s: string)
    requires s == "Reduce legal dispute resolution time/cost by 70% using AI."
    ensures MatchesAt(s, "dispute", 13)
  {
    FirstGoalHead(s);
    DisputeInHead(s[..31]);
    assert s == s[..31] + s[31..];
    MatchInPrefix(s[..31], s[31..], "dispute", 13);
  }

  /** "accuracy" starts at index 12 of the second "Let's Solve It" goal. */
  lemma {:induction false} AccuracyInSecondGoal(s: string)
    requires s == "Achieve 95% accuracy in document analysis."
    ensures MatchesAt(s, "accuracy", 12)
  {
    assert s == "Achieve 95% " + "accuracy" + " in document analysis.";
    MatchInMiddle("Achieve 95% ", "accuracy", " in document analysis.");
  }

  /** "analysis" starts at index 33 of the second "Let's Solve It" goal. */
  lemma {:induction false} AnalysisInSecondGoal(s: string)
    requires s == "Achieve 95% accuracy in document analysis."
    ensures MatchesAt(s, "analysis", 33)
  {
    assert s == "Achieve 95% accuracy in document " + "analysis" + ".";
    MatchInMiddle("Achieve 95% accuracy in document ", "analysis", ".");
  }

  /** "Let's Solve It" mentions a dispute, accuracy and an analysis. */
  lemma {:induction false} LetsSolveItMentions(goals: seq<string>)
    requires goals == LetsSolveItGoals
    ensures Mentions(goals, "dispute") && Mentions(goals, "accuracy") && Mentions(goals, "analysis")
  {
    DisputeInFirstGoal(goals[0]);
    MentionedAt(goals, "dispute", 0, 13);
    AccuracyInSecondGoal(goals[1]);
    MentionedAt(goals, "accuracy", 1, 12);
    AnalysisInSecondGoal(goals[1]);
    MentionedAt(goals, "analysis", 1, 33);
  }

  /** Every rule fires for "Let's Solve It", so a wizard opened on it starts
      with all three suggestions. */
  lemma LetsSolveItGetsAll(now: nat)
    ensures Suggest(Some(LetsSolveIt), now) == AllSuggestions(now)
    ensures Wizard.Initial(Some(LetsSolveIt), now).features == AllSuggestions(now)
  {
    LetsSolveItMentions(LetsSolveIt.goals);
    SuggestAll(LetsSolveIt, now);
  }

  /** "ai" does not match in "Improve client onboarding experience": cut
      at an 'o' and an 'r', every piece misses an 'a' or an 'i'. */
  lemma {:induction false} OnboardingNoAi(s: string)
    requires s == "Improve client onboarding experience"
    ensures forall i :: !MatchesAt(s, "ai", i)
  {
    assert s == "Improve client onb" + ['o'] + ("a" + ['r'] + "ding experience");
    MissingLetter("Improve client onb", "ai", 0);
    MissingLetter("a", "ai", 1);
    MissingLetter("ding experience", "ai", 0);
    MatchSplit("a", 'r', "ding experience", "ai");
    MatchSplit("Improve client onb", 'o', "a" + ['r'] + "ding experience", "ai");
  }

  /** "ai" does not match in "Streamline document sharing": cut at its two
      'm's and its 'r'. */
  lemma {:induction false} SharingNoAi(s: string)
    requires s == "Streamline document sharing"
    ensures forall i :: !MatchesAt(s, "ai", i)
  {
    assert s == "Strea" + ['m'] + ("line docu" + ['m'] + ("ent sha" + ['r'] + "ing"));
    MissingLetter("Strea", "ai", 1);
    MissingLetter("line docu", "ai", 0);
    MissingLetter("ent sha", "ai", 1);
    MissingLetter("ing", "ai", 0);
    MatchSplit("ent sha", 'r', "ing", "ai");
    MatchSplit("line docu", 'm', "ent sha" + ['r'] + "ing", "ai");
    MatchSplit("Strea", 'm', "line docu" + ['m'] + ("ent sha" + ['r'] + "ing"), "ai");
  }

  /** "ai" does not match in "Add real-time collaboration tools": cut at
      its 't's and its 'm'. */
  lemma {:induction false} CollaborationNoAi(s: string)
    requires s == "Add real-time collaboration tools"
    ensures forall i :: !MatchesAt(s, "ai", i)
  {
    assert s == "Add real-" + ['t'] + (("i" + ['m'] + "e collabora") + ['t'] + "ion tools");
    MissingLetter("Add real-", "ai", 1);
    MissingLetter("i", "ai", 0);
    MissingLetter("e collabora", "ai", 1);
    MissingLetter("ion tools", "ai", 0);
    MatchSplit("i", 'm', "e collabora", "ai");
    MatchSplit("i" + ['m'] + "e collabora", 't', "ion tools", "ai");
    MatchSplit("Add real-", 't', ("i" + ['m'] + "e collabora") + ['t'] + "ion tools", "ai");
  }

  /** "ai" matches in none of the "Client Portal Redesign" goals. */
  lemma {:induction false} ClientPortalNoAi(goals: seq<string>)
    requires goals == ClientPortalGoals
    ensures !Mentions(goals, "ai")
  {
    OnboardingNoAi(goals[0]);
    SharingNoAi(goals[1]);
    CollaborationNoAi(goals[2]);
    NotMentioned(goals, "ai");
  }

  /** "analysis" and "accuracy" need a 'y', which "Improve client onboarding experience" lacks. */
  lemma {:induction false} OnboardingLacksY(s: string)
    requires s == "Improve client onboarding experience"
    ensures forall i :: !MatchesAt(s, "analysis", i)
    ensures forall i :: !MatchesAt(s, "accuracy", i)
  {
    assert 'y' !in s && 'Y' !in s;
    MissingLetter(s, "analysis", 4);
    MissingLetter(s, "accuracy", 7);
  }

  /** "dispute" and "resolution" need a 'u', which "Improve client onboarding experience" lacks. */
  lemma {:induction false} OnboardingLacksU(s: string)
    requires s == "Improve client onboarding experience"
    ensures forall i :: !MatchesAt(s, "dispute", i)
    ensures forall i :: !MatchesAt(s, "resolution", i)
  {
    assert 'u' !in s && 'U' !in s;
    MissingLetter(s, "dispute", 4);
    MissingLetter(s, "resolution", 5);
  }

  /** "analysis" and "accuracy" need a 'y', which "Streamline document sharing" lacks. */
  lemma {:induction false} SharingLacksY(s: string)
    requires s == "Streamline document sharing"
    ensures forall i :: !MatchesAt(s, "analysis", i)
    ensures forall i :: !MatchesAt(s, "accuracy", i)
  {
    assert 'y' !in s && 'Y' !in s;
    MissingLetter(s, "analysis", 4);
    MissingLetter(s, "accuracy", 7);
  }

  /** "dispute" needs a 'p', which "Streamline document sharing" lacks. */
  lemma {:induction false} SharingLacksP(s: string)
    requires s == "Streamline document sharing"
    ensures forall i :: !MatchesAt(s, "dispute", i)
  {
    assert 'p' !in s && 'P' !in s;
    MissingLetter(s, "dispute", 3);
  }

  /** "resolution" does not match in "Streamline document sharing": cut at
      its two 'm's, the pieces lack a 'u' or an 'r'. */
  lemma {:induction false} SharingNoResolution(s: string)
    requires s == "Streamline document sharing"
    ensures forall i :: !MatchesAt(s, "resolution", i)
  {
    assert s == "Strea" + ['m'] + ("line docu" + ['m'] + "ent sharing");
    MissingLetter("Strea", "resolution", 5);
    MissingLetter("line docu", "resolution", 0);
    MissingLetter("ent sharing", "resolution", 5);
    MatchSplit("line docu", 'm', "ent sharing", "resolution");
    MatchSplit("Strea", 'm', "line docu" + ['m'] + "ent sharing", "resolution");
  }

  /** "analysis" and "accuracy" need a 'y', which "Add real-time collaboration tools" lacks. */
  lemma {:induction false} CollaborationLacksY(s: string)
    requires s == "Add real-time collaboration tools"
    ensures forall i :: !MatchesAt(s, "analysis", i)
    ensures forall i :: !MatchesAt(s, "accuracy", i)
  {
    assert 'y' !in s && 'Y' !in s;
    MissingLetter(s, "analysis", 4);
    MissingLetter(s, "accuracy", 7);
  }

  /** "dispute" and "resolution" need a 'u', which "Add real-time collaboration tools" lacks. */
  lemma {:induction false} CollaborationLacksU(s: string)
    requires s == "Add real-time collaboration tools"
    ensures forall i :: !MatchesAt(s, "dispute", i)
    ensures forall i :: !MatchesAt(s, "resolution", i)
  {
    assert 'u' !in s && 'U' !in s;
    MissingLetter(s, "dispute", 4);
    MissingLetter(s, "resolution", 5);
  }

  /** Only "ai" could have fired; the letter checks above rule out the rest. */
  lemma {:induction false} ClientPortalOtherKeywords(goals: seq<string>)
    requires goals == ClientPortalGoals
    ensures !Mentions(goals, "analysis") && !Mentions(goals, "accuracy")
    ensures !Mentions(goals, "dispute") && !Mentions(goals, "resolution")
  {
    OnboardingLacksY(goals[0]);
    OnboardingLacksU(goals[0]);
    SharingLacksY(goals[1]);
    SharingLacksP(goals[1]);
    SharingNoResolution(goals[1]);
    CollaborationLacksY(goals[2]);
    CollaborationLacksU(goals[2]);
    NotMentioned(goals, "analysis");
    NotMentioned(goals, "accuracy");
    NotMentioned(goals, "dispute");
    NotMentioned(goals, "resolution");
  }

  /** None of the "Client Portal Redesign" goals triggers a rule, so
      choosing it gives the feature step an empty list. */
  lemma ClientPortalGetsNone(now: nat)
    ensures Suggest(Some(ClientPortal), now) == []
  {
    ClientPortalNoAi(ClientPortal.goals);
    ClientPortalOtherKeywords(ClientPortal.goals);
    SuggestNone(ClientPortal, now);
  }
}
