/** The suggestion engine: three fixed keyword rules over a project's goals,
    each contributing at most one system-suggested feature, in rule order.
    Matching is case-insensitive substring search. */
module Suggestions {
  import opened Text
  import opened Seqs
  import opened Entities

  /** A rule fires when some lower-cased goal includes one of its keywords;
      its feature id ends in `-suffix`. */
  datatype Rule = Rule(
    keywords: seq<string>,
    name: string,
    description: string,
    priority: Priority,
    suffix: string)

  const AnalyzerRule := Rule(["ai", "analysis"], "AI Document Analyzer",
    "Analyze legal documents using AI", High, "1")
  const DisputeRule := Rule(["dispute", "resolution"], "Dispute Resolution Engine",
    "Automated dispute resolution system", High, "2")
  const AccuracyRule := Rule(["accuracy"], "Accuracy Verification System",
    "Verify the accuracy of AI-generated results", Medium, "3")

  /** Some lower-cased goal contains `keyword`: the property the rules test,
      stated without the scan. */
  ghost predicate Mentions(goals: seq<string>, keyword: string) {
    exists g, i :: 0 <= g < |goals| && OccursAt(LowerCase(goals[g]), keyword, i)
  }

  /** `goal.toLowerCase().includes(k1) || goal.toLowerCase().includes(k2) || ...` */
  predicate MatchesAny(goal: string, keywords: seq<string>) {
    keywords != [] && (Includes(LowerCase(goal), keywords[0]) || MatchesAny(goal, keywords[1..]))
  }

  /** `goals.some(goal => MatchesAny(goal, keywords))`. */
  predicate AnyGoal(goals: seq<string>, keywords: seq<string>) {
    goals != [] && (MatchesAny(goals[0], keywords) || AnyGoal(goals[1..], keywords))
  }

  /** A goal matches exactly when one of the keywords occurs in its lower-cased text. */
  lemma {:induction false} MatchesAnyIffOccurs(goal: string, keywords: seq<string>)
    ensures MatchesAny(goal, keywords) <==>
      exists k, i :: 0 <= k < |keywords| && OccursAt(LowerCase(goal), keywords[k], i)
  {
    if keywords != [] {
      MatchesAnyIffOccurs(goal, keywords[1..]);
      IncludesIffOccurs(LowerCase(goal), keywords[0]);
      assert forall k :: 1 <= k < |keywords| ==> keywords[k] == keywords[1..][k - 1];
      if k, i :| 0 <= k < |keywords| && OccursAt(LowerCase(goal), keywords[k], i) {
        if k > 0 {
          assert OccursAt(LowerCase(goal), keywords[1..][k - 1], i);
        }
      }
    }
  }

  /** The scan over goals and keywords fires exactly when some keyword is mentioned. */
  lemma {:induction false} AnyGoalIffMentions(goals: seq<string>, keywords: seq<string>)
    ensures AnyGoal(goals, keywords) <==> exists k :: 0 <= k < |keywords| && Mentions(goals, keywords[k])
  {
    if goals != [] {
      AnyGoalIffMentions(goals[1..], keywords);
      MatchesAnyIffOccurs(goals[0], keywords);
      if AnyGoal(goals, keywords) {
        if MatchesAny(goals[0], keywords) {
          var k, i :| 0 <= k < |keywords| && OccursAt(LowerCase(goals[0]), keywords[k], i);
          assert Mentions(goals, keywords[k]);
        } else {
          var k :| 0 <= k < |keywords| && Mentions(goals[1..], keywords[k]);
          var g, i :| 0 <= g < |goals[1..]| && OccursAt(LowerCase(goals[1..][g]), keywords[k], i);
          assert OccursAt(LowerCase(goals[g + 1]), keywords[k], i);
        }
      }
      if k :| 0 <= k < |keywords| && Mentions(goals, keywords[k]) {
        var g, i :| 0 <= g < |goals| && OccursAt(LowerCase(goals[g]), keywords[k], i);
        if g == 0 {
          assert MatchesAny(goals[0], keywords);
        } else {
          assert OccursAt(LowerCase(goals[1..][g - 1]), keywords[k], i);
          assert Mentions(goals[1..], keywords[k]);
        }
      }
    }
  }

  /** The scan with one or two keywords, spelled out. */
  lemma AnyGoalIffMentionsOne(goals: seq<string>, k1: string)
    ensures AnyGoal(goals, [k1]) <==> Mentions(goals, k1)
  {
    AnyGoalIffMentions(goals, [k1]);
    if AnyGoal(goals, [k1]) {
      var k :| 0 <= k < 1 && Mentions(goals, [k1][k]);
      assert k == 0;
    } else {
      assert [k1][0] == k1;
    }
  }

  lemma AnyGoalIffMentionsTwo(goals: seq<string>, k1: string, k2: string)
    ensures AnyGoal(goals, [k1, k2]) <==> Mentions(goals, k1) || Mentions(goals, k2)
  {
    AnyGoalIffMentions(goals, [k1, k2]);
    if AnyGoal(goals, [k1, k2]) {
      var k :| 0 <= k < 2 && Mentions(goals, [k1, k2][k]);
      assert k == 0 || k == 1;
    } else {
      assert [k1, k2][0] == k1 && [k1, k2][1] == k2;
    }
  }

  /** The feature a rule contributes; `now` stands for `Date.now()`. */
  function Suggested(rule: Rule, now: nat): Feature {
    Feature("feature-" + Decimal(now) + "-" + rule.suffix, rule.name, rule.description,
      rule.priority, true, [])
  }

  /** The three suggestions in rule order, as when every rule fires. */
  function AllSuggestions(now: nat): seq<Feature> {
    [Suggested(AnalyzerRule, now), Suggested(DisputeRule, now), Suggested(AccuracyRule, now)]
  }

  function Contribution(goals: seq<string>, rule: Rule, now: nat): seq<Feature> {
    if AnyGoal(goals, rule.keywords) then [Suggested(rule, now)] else []
  }

  /** Ids generated within one call differ in their last character. */
  lemma SuggestedIdsDistinct(now: nat)
    ensures Suggested(AnalyzerRule, now).id != Suggested(DisputeRule, now).id
    ensures Suggested(AnalyzerRule, now).id != Suggested(AccuracyRule, now).id
    ensures Suggested(DisputeRule, now).id != Suggested(AccuracyRule, now).id
  {
    var p := "feature-" + Decimal(now) + "-";
    assert Suggested(AnalyzerRule, now).id == p + "1";
    assert Suggested(DisputeRule, now).id == p + "2";
    assert Suggested(AccuracyRule, now).id == p + "3";
    assert (p + "1")[|p|] == '1' && (p + "2")[|p|] == '2' && (p + "3")[|p|] == '3';
  }

  /** The rules applied to `goals`, in rule order. */
  function FromGoals(goals: seq<string>, now: nat): seq<Feature> {
    Contribution(goals, AnalyzerRule, now) + Contribution(goals, DisputeRule, now)
      + Contribution(goals, AccuracyRule, now)
  }

  /** The rules' output is an order-preserving pick from the three suggestions. */
  lemma FromGoalsSubsequence(goals: seq<string>, now: nat)
    ensures SubsequenceOf(FromGoals(goals, now), AllSuggestions(now))
  {
    var a := Contribution(goals, AnalyzerRule, now);
    var d := Contribution(goals, DisputeRule, now);
    var c := Contribution(goals, AccuracyRule, now);
    var all := AllSuggestions(now);
    assert SubsequenceOf(c, [all[2]]) by {
      if c != [] { SubsequencePrepend(all[2], [], []); }
    }
    assert SubsequenceOf(d + c, [all[1], all[2]]) by {
      SubsequencePrepend(all[1], c, [all[2]]);
      if d != [] { assert d + c == [all[1]] + c; } else { assert d + c == c; }
      assert [all[1]] + [all[2]] == [all[1], all[2]];
    }
    assert SubsequenceOf(a + (d + c), all) by {
      SubsequencePrepend(all[0], d + c, [all[1], all[2]]);
      if a != [] { assert a + (d + c) == [all[0]] + (d + c); } else { assert a + (d + c) == d + c; }
      assert [all[0]] + [all[1], all[2]] == all;
    }
    assert a + d + c == a + (d + c);
  }

  /** Each suggestion is present exactly when its own rule fires. */
  lemma FromGoalsMembership(goals: seq<string>, now: nat)
    ensures Suggested(AnalyzerRule, now) in FromGoals(goals, now) <==> AnyGoal(goals, AnalyzerRule.keywords)
    ensures Suggested(DisputeRule, now) in FromGoals(goals, now) <==> AnyGoal(goals, DisputeRule.keywords)
    ensures Suggested(AccuracyRule, now) in FromGoals(goals, now) <==> AnyGoal(goals, AccuracyRule.keywords)
  {
    SuggestedIdsDistinct(now);
    var a := Contribution(goals, AnalyzerRule, now);
    var d := Contribution(goals, DisputeRule, now);
    var c := Contribution(goals, AccuracyRule, now);
    assert forall x :: x in a + d + c <==> x in a || x in d || x in c;
  }

  /** Ids within one call are pairwise distinct, even for a single `now`. */
  lemma FromGoalsIdsDistinct(goals: seq<string>, now: nat)
    ensures forall i, j :: 0 <= i < j < |FromGoals(goals, now)| ==>
      FromGoals(goals, now)[i].id != FromGoals(goals, now)[j].id
  {
    SuggestedIdsDistinct(now);
    var a := Contribution(goals, AnalyzerRule, now);
    var d := Contribution(goals, DisputeRule, now);
    var c := Contribution(goals, AccuracyRule, now);
    var r := a + d + c;
    forall i, j | 0 <= i < j < |r|
      ensures r[i].id != r[j].id
    {
      if i < |a| {
        assert r[i] == Suggested(AnalyzerRule, now);
      } else {
        assert r[i] == Suggested(DisputeRule, now);
        assert r[j] == Suggested(AccuracyRule, now);
      }
    }
  }

  /** Every suggestion is marked as the system's, is named and described,
      and only the accuracy rule's is of medium priority. */
  lemma FromGoalsFields(goals: seq<string>, now: nat)
    ensures forall f :: f in FromGoals(goals, now) ==>
      f.suggestedBySystem && f.name != "" && f.description != ""
      && (f.priority == Medium <==> f.name == AccuracyRule.name)
  {
    var a := Contribution(goals, AnalyzerRule, now);
    var d := Contribution(goals, DisputeRule, now);
    var c := Contribution(goals, AccuracyRule, now);
    assert forall x :: x in a + d + c ==> x in a || x in d || x in c;
    assert AnalyzerRule.name != AccuracyRule.name && DisputeRule.name != AccuracyRule.name;
  }

  /** `generateSuggestedFeatures(project)`, with `now` for `Date.now()`. */
  function Suggest(project: Option<Project>, now: nat): (r: seq<Feature>)
    ensures project.None? ==> r == []
    ensures SubsequenceOf(r, AllSuggestions(now))
    ensures forall f :: f in r ==> f.suggestedBySystem && f.name != "" && f.description != ""
    ensures forall f :: f in r ==> (f.priority == Medium <==> f.name == AccuracyRule.name)
    ensures project.Some? ==>
      (Suggested(AnalyzerRule, now) in r <==>
        Mentions(project.value.goals, "ai") || Mentions(project.value.goals, "analysis"))
    ensures project.Some? ==>
      (Suggested(DisputeRule, now) in r <==>
        Mentions(project.value.goals, "dispute") || Mentions(project.value.goals, "resolution"))
    ensures project.Some? ==>
      (Suggested(AccuracyRule, now) in r <==> Mentions(project.value.goals, "accuracy"))
    ensures forall i, j :: 0 <= i < j < |r| ==> r[i].id != r[j].id
  {
    match project
    case None => []
    case Some(p) =>
      FromGoalsSubsequence(p.goals, now);
      FromGoalsMembership(p.goals, now);
      FromGoalsIdsDistinct(p.goals, now);
      FromGoalsFields(p.goals, now);
      AnyGoalIffMentionsTwo(p.goals, "ai", "analysis");
      AnyGoalIffMentionsTwo(p.goals, "dispute", "resolution");
      AnyGoalIffMentionsOne(p.goals, "accuracy");
      FromGoals(p.goals, now)
  }

  /** A keyword that matches nowhere in any goal is not mentioned. */
  lemma NotMentioned(goals: seq<string>, keyword: string)
    requires forall g, i :: 0 <= g < |goals| ==> !MatchesAt(goals[g], keyword, i)
    ensures !Mentions(goals, keyword)
  {
    forall g, i | 0 <= g < |goals|
      ensures !OccursAt(LowerCase(goals[g]), keyword, i)
    {
      MatchesAtIffOccurs(goals[g], keyword, i);
    }
  }

  /** A keyword matching somewhere in one goal is mentioned. */
  lemma MentionedAt(goals: seq<string>, keyword: string, g: nat, i: int)
    requires g < |goals| && MatchesAt(goals[g], keyword, i)
    ensures Mentions(goals, keyword)
  {
    MatchesAtIffOccurs(goals[g], keyword, i);
  }

  /** Goals that mention none of the keywords get no suggestions. */
  lemma {:induction false} SuggestNone(p: Project, now: nat)
    requires !Mentions(p.goals, "ai") && !Mentions(p.goals, "analysis")
    requires !Mentions(p.goals, "dispute") && !Mentions(p.goals, "resolution")
    requires !Mentions(p.goals, "accuracy")
    ensures Suggest(Some(p), now) == []
  {
    AnyGoalIffMentionsTwo(p.goals, "ai", "analysis");
    AnyGoalIffMentionsTwo(p.goals, "dispute", "resolution");
    AnyGoalIffMentionsOne(p.goals, "accuracy");
  }

  /** Goals that trigger every rule get all three suggestions, in rule order. */
  lemma {:induction false} SuggestAll(p: Project, now: nat)
    requires Mentions(p.goals, "ai") || Mentions(p.goals, "analysis")
    requires Mentions(p.goals, "dispute") || Mentions(p.goals, "resolution")
    requires Mentions(p.goals, "accuracy")
    ensures Suggest(Some(p), now) == AllSuggestions(now)
  {
    AnyGoalIffMentionsTwo(p.goals, "ai", "analysis");
    AnyGoalIffMentionsTwo(p.goals, "dispute", "resolution");
    AnyGoalIffMentionsOne(p.goals, "accuracy");
  }
}
