/**
 Report coverage: a priority-weighted average of the criterion verdicts, over real numbers.
 */
module Scoring {
  import opened Common
  import opened Model

  datatype CoverageScore = CoverageScore(coverage: Option<real>, assessed: nat, unverified: nat)

  function CriterionValue(verdict: Verdict): Option<real> {
    match verdict
    case Supported => Some(1.0)
    case Partial => Some(0.5)
    case Unsupported => Some(0.0)
    case Unverified => None
  }

  /** The verdicts that were actually assessed. */
  function AssessedOf(criteria: seq<CriterionAssessment>): seq<Verdict> {
    if criteria == [] then []
    else
      var rest := AssessedOf(criteria[..|criteria| - 1]);
      var verdict := criteria[|criteria| - 1].verdict;
      if verdict == Unverified then rest else rest + [verdict]
  }

  predicate All(verdicts: seq<Verdict>, verdict: Verdict) {
    forall i :: 0 <= i < |verdicts| ==> verdicts[i] == verdict
  }

  function AggregateGoal(criteria: seq<CriterionAssessment>): Verdict {
    var assessed := AssessedOf(criteria);
    if assessed == [] then Unverified
    else if All(assessed, Supported) then Supported
    else if All(assessed, Unsupported) then Unsupported
    else Partial
  }

  // Specification of the score.

  /** Later assessments of the same goal version replace earlier ones. */
  function ByGoal(assessments: seq<GoalAssessment>): map<string, GoalAssessment> {
    if assessments == [] then map[]
    else
      var last := assessments[|assessments| - 1];
      ByGoal(assessments[..|assessments| - 1])[last.goalVersionId := last]
  }

  function Value(verdict: Verdict): real {
    var value := CriterionValue(verdict);
    if value.Some? then value.value else 0.0
  }

  /** Sum of the values of the assessed criteria. */
  function Total(criteria: seq<CriterionAssessment>): real {
    if criteria == [] then 0.0
    else Total(criteria[..|criteria| - 1]) + Value(criteria[|criteria| - 1].verdict)
  }

  function AssessedCount(criteria: seq<CriterionAssessment>): (n: nat)
    ensures n <= |criteria|
  {
    if criteria == [] then 0
    else
      AssessedCount(criteria[..|criteria| - 1]) + (if criteria[|criteria| - 1].verdict == Unverified then 0 else 1)
  }

  /** The mean of the assessed criteria of one goal, if there is any. */
  function GoalScore(criteria: seq<CriterionAssessment>): Option<real> {
    var n := AssessedCount(criteria);
    if n == 0 then None else Some(Total(criteria) / n as real)
  }

  function ScoreOf(goal: GoalVersion, found: map<string, GoalAssessment>): Option<real> {
    if goal.id in found then GoalScore(found[goal.id].criteria) else None
  }

  function Weight(goal: GoalVersion, found: map<string, GoalAssessment>): real {
    if ScoreOf(goal, found).Some? then goal.priority as real else 0.0
  }

  function Contribution(goal: GoalVersion, found: map<string, GoalAssessment>): real {
    var score := ScoreOf(goal, found);
    if score.Some? then score.value * goal.priority as real else 0.0
  }

  function WeightedTotal(goals: seq<GoalVersion>, found: map<string, GoalAssessment>): real {
    if goals == [] then 0.0
    else WeightedTotal(goals[..|goals| - 1], found) + Contribution(goals[|goals| - 1], found)
  }

  function IncludedWeight(goals: seq<GoalVersion>, found: map<string, GoalAssessment>): real {
    if goals == [] then 0.0
    else IncludedWeight(goals[..|goals| - 1], found) + Weight(goals[|goals| - 1], found)
  }

  function AssessedIn(goals: seq<GoalVersion>, found: map<string, GoalAssessment>): nat {
    if goals == [] then 0
    else
      var goal := goals[|goals| - 1];
      AssessedIn(goals[..|goals| - 1], found)
      + (if goal.id in found then AssessedCount(found[goal.id].criteria) else 0)
  }

  /** Criteria a reader must treat as open: of unassessed goals, and those marked unverified. */
  function UnverifiedIn(goals: seq<GoalVersion>, found: map<string, GoalAssessment>): nat {
    if goals == [] then 0
    else
      var goal := goals[|goals| - 1];
      UnverifiedIn(goals[..|goals| - 1], found)
      + (if goal.id in found then |found[goal.id].criteria| - AssessedCount(found[goal.id].criteria)
         else |goal.criteria|)
  }

  function Coverage(goals: seq<GoalVersion>, assessments: seq<GoalAssessment>): Option<real> {
    var found := ByGoal(assessments);
    var weight := IncludedWeight(goals, found);
    if weight > 0.0 then Some(WeightedTotal(goals, found) / weight) else None
  }

  function Score(goals: seq<GoalVersion>, assessments: seq<GoalAssessment>): CoverageScore {
    var found := ByGoal(assessments);
    CoverageScore(Coverage(goals, assessments), AssessedIn(goals, found), UnverifiedIn(goals, found))
  }

  // The loops.

  method IndexAssessments(assessments: seq<GoalAssessment>) returns (found: map<string, GoalAssessment>)
    ensures found == ByGoal(assessments)
  {
    found := map[];
    for i := 0 to |assessments|
      invariant found == ByGoal(assessments[..i])
    {
      assert assessments[..i + 1][..i] == assessments[..i];
      found := found[assessments[i].goalVersionId := assessments[i]];
    }
    assert assessments[..|assessments|] == assessments;
  }

  method CollectValues(criteria: seq<CriterionAssessment>) returns (sum: real, count: nat, skipped: nat)
    ensures sum == Total(criteria)
    ensures count == AssessedCount(criteria)
    ensures skipped == |criteria| - count
  {
    sum, count, skipped := 0.0, 0, 0;
    for i := 0 to |criteria|
      invariant sum == Total(criteria[..i])
      invariant count == AssessedCount(criteria[..i])
      invariant skipped == i - count
    {
      assert criteria[..i + 1][..i] == criteria[..i];
      var value := CriterionValue(criteria[i].verdict);
      if value.Some? {
        count := count + 1;
        sum := sum + value.value;
      } else {
        skipped := skipped + 1;
      }
    }
    assert criteria[..|criteria|] == criteria;
  }

  method ScoreReport(goals: seq<GoalVersion>, assessments: seq<GoalAssessment>) returns (score: CoverageScore)
    ensures score == Score(goals, assessments)
  {
    var found := IndexAssessments(assessments);
    var weightedTotal, includedWeight := 0.0, 0.0;
    var assessed, unverified := 0, 0;
    for i := 0 to |goals|
      invariant weightedTotal == WeightedTotal(goals[..i], found)
      invariant includedWeight == IncludedWeight(goals[..i], found)
      invariant assessed == AssessedIn(goals[..i], found)
      invariant unverified == UnverifiedIn(goals[..i], found)
    {
      hide AssessedCount, Total;
      assert goals[..i + 1][..i] == goals[..i];
      var goal := goals[i];
      if goal.id !in found {
        unverified := unverified + |goal.criteria|;
        continue;
      }
      var sum, count, skipped := CollectValues(found[goal.id].criteria);
      assessed := assessed + count;
      unverified := unverified + skipped;
      if count == 0 { continue; }
      var weight := goal.priority as real;
      weightedTotal := weightedTotal + sum / count as real * weight;
      includedWeight := includedWeight + weight;
    }
    assert goals[..|goals|] == goals;
    score := CoverageScore(
      if includedWeight > 0.0 then Some(weightedTotal / includedWeight) else None, assessed, unverified);
  }

  // What the score means.

  predicate Weighted(goals: seq<GoalVersion>) {
    forall i :: 0 <= i < |goals| ==> goals[i].priority >= 1
  }

  predicate Assessed(goal: GoalVersion, found: map<string, GoalAssessment>) {
    goal.id in found && AggregateGoal(found[goal.id].criteria) != Unverified
  }

  lemma {:induction false} TotalBounds(criteria: seq<CriterionAssessment>)
    ensures 0.0 <= Total(criteria) <= AssessedCount(criteria) as real
    ensures |AssessedOf(criteria)| == AssessedCount(criteria)
    ensures Total(criteria) == AssessedCount(criteria) as real <==> All(AssessedOf(criteria), Supported)
    ensures Total(criteria) == 0.0 <==> All(AssessedOf(criteria), Unsupported)
  {
    if criteria != [] {
      var init, verdict := criteria[..|criteria| - 1], criteria[|criteria| - 1].verdict;
      TotalBounds(init);
      if verdict != Unverified {
        var before := AssessedOf(init);
        assert AssessedOf(criteria) == before + [verdict];
        assert forall v :: All(before + [verdict], v) <==> All(before, v) && verdict == v by {
          forall v ensures All(before + [verdict], v) <==> All(before, v) && verdict == v {
            if All(before + [verdict], v) {
              assert (before + [verdict])[|before|] == verdict;
              assert forall i :: 0 <= i < |before| ==> before[i] == (before + [verdict])[i];
            }
          }
        }
      }
    }
  }

  lemma GoalScoreMeansVerdict(criteria: seq<CriterionAssessment>)
    ensures GoalScore(criteria).None? <==> AggregateGoal(criteria) == Unverified
    ensures GoalScore(criteria).Some? ==>
              && 0.0 <= GoalScore(criteria).value <= 1.0
              && (GoalScore(criteria).value == 1.0 <==> AggregateGoal(criteria) == Supported)
              && (GoalScore(criteria).value == 0.0 <==> AggregateGoal(criteria) == Unsupported)
  {
    TotalBounds(criteria);
    var assessed := AssessedOf(criteria);
    var n := AssessedCount(criteria);
    if n > 0 {
      assert All(assessed, Supported) ==> assessed[0] == Supported;
      assert All(assessed, Unsupported) ==> assessed[0] == Unsupported;
      Quotient(Total(criteria), n as real);
    }
  }

  lemma ProductOrder(a: real, b: real, d: real)
    requires d > 0.0
    ensures a < b ==> a * d < b * d
  {
    if a < b { assert (b - a) * d > 0.0; }
  }

  lemma Quotient(x: real, y: real)
    requires 0.0 <= x <= y && y > 0.0
    ensures 0.0 <= x / y <= 1.0
    ensures x / y == 1.0 <==> x == y
    ensures x / y == 0.0 <==> x == 0.0
  {
    var q := x / y;
    assert q * y == x;
    ProductOrder(q, 0.0, y);
    ProductOrder(1.0, q, y);
  }

  ghost predicate AllAssessed(goals: seq<GoalVersion>, found: map<string, GoalAssessment>, verdict: Verdict) {
    forall i :: 0 <= i < |goals| && Assessed(goals[i], found)
                ==> AggregateGoal(found[goals[i].id].criteria) == verdict
  }

  ghost predicate NoneAssessed(goals: seq<GoalVersion>, found: map<string, GoalAssessment>) {
    forall i :: 0 <= i < |goals| ==> !Assessed(goals[i], found)
  }

  lemma ScaledBounds(q: real, w: real)
    requires 0.0 <= q <= 1.0 && w > 0.0
    ensures 0.0 <= q * w <= w
    ensures q * w == w <==> q == 1.0
    ensures q * w == 0.0 <==> q == 0.0
  {
    if q < 1.0 { assert (1.0 - q) * w > 0.0; }
  }

  lemma ContributionBounds(goal: GoalVersion, found: map<string, GoalAssessment>)
    requires goal.priority >= 1
    ensures 0.0 <= Contribution(goal, found) <= Weight(goal, found)
    ensures Weight(goal, found) == 0.0 <==> !Assessed(goal, found)
    ensures Contribution(goal, found) == Weight(goal, found)
            <==> (Assessed(goal, found) ==> AggregateGoal(found[goal.id].criteria) == Supported)
    ensures Contribution(goal, found) == 0.0
            <==> (Assessed(goal, found) ==> AggregateGoal(found[goal.id].criteria) == Unsupported)
  {
    hide GoalScore, AggregateGoal;
    if goal.id in found {
      GoalScoreMeansVerdict(found[goal.id].criteria);
      var score := ScoreOf(goal, found);
      if score.Some? {
        var q, w := score.value, goal.priority as real;
        ScaledBounds(q, w);
        assert Contribution(goal, found) == q * w && Weight(goal, found) == w;
      }
    }
  }

  lemma {:induction false} WeightBounds(goals: seq<GoalVersion>, found: map<string, GoalAssessment>)
    requires Weighted(goals)
    ensures 0.0 <= WeightedTotal(goals, found) <= IncludedWeight(goals, found)
    ensures IncludedWeight(goals, found) == 0.0 <==> NoneAssessed(goals, found)
    ensures WeightedTotal(goals, found) == IncludedWeight(goals, found) <==> AllAssessed(goals, found, Supported)
    ensures WeightedTotal(goals, found) == 0.0 <==> AllAssessed(goals, found, Unsupported)
  {
    hide Contribution, Weight, AggregateGoal;
    if goals != [] {
      var init, goal := goals[..|goals| - 1], goals[|goals| - 1];
      assert goals == init + [goal];
      WeightBounds(init, found);
      SplitLast(init, goal, found);
      ContributionBounds(goal, found);
    }
  }

  lemma SplitLast(init: seq<GoalVersion>, goal: GoalVersion, found: map<string, GoalAssessment>)
    ensures NoneAssessed(init + [goal], found) <==> NoneAssessed(init, found) && !Assessed(goal, found)
    ensures forall v :: AllAssessed(init + [goal], found, v) <==>
                        AllAssessed(init, found, v)
                        && (Assessed(goal, found) ==> AggregateGoal(found[goal.id].criteria) == v)
  {
    hide AggregateGoal;
    var goals := init + [goal];
    assert goals[|init|] == goal;
    assert forall i :: 0 <= i < |init| ==> goals[i] == init[i];
  }

  /**
   Coverage lies between 0 and 1, is absent exactly when no goal was assessed, and is 1 (or 0) exactly
   when every assessed goal is supported (or unsupported).
   */
  lemma CoverageIsSound(goals: seq<GoalVersion>, assessments: seq<GoalAssessment>)
    requires Weighted(goals)
    ensures var found := ByGoal(assessments);
            var coverage := Coverage(goals, assessments);
            && (coverage.None? <==> NoneAssessed(goals, found))
            && (coverage.Some? ==> 0.0 <= coverage.value <= 1.0)
            && (coverage.Some? ==> (coverage.value == 1.0 <==> AllAssessed(goals, found, Supported)))
            && (coverage.Some? ==> (coverage.value == 0.0 <==> AllAssessed(goals, found, Unsupported)))
  {
    hide AllAssessed, NoneAssessed;
    var found := ByGoal(assessments);
    WeightBounds(goals, found);
    if IncludedWeight(goals, found) > 0.0 {
      Quotient(WeightedTotal(goals, found), IncludedWeight(goals, found));
    }
  }

  /** Every criterion of every goal is counted once, as assessed or as unverified. */
  lemma {:induction false} CountsAreComplete(goals: seq<GoalVersion>, found: map<string, GoalAssessment>)
    ensures AssessedIn(goals, found) + UnverifiedIn(goals, found) == CriteriaIn(goals, found)
  {
    if goals != [] {
      CountsAreComplete(goals[..|goals| - 1], found);
    }
  }

  function CriteriaIn(goals: seq<GoalVersion>, found: map<string, GoalAssessment>): nat {
    if goals == [] then 0
    else
      var goal := goals[|goals| - 1];
      CriteriaIn(goals[..|goals| - 1], found) + |if goal.id in found then found[goal.id].criteria else []|
      + (if goal.id in found then 0 else |goal.criteria|)
  }

  // Monotonicity.

  /** A verdict moves up Unsupported, Partial, Supported, or stays as it is. */
  predicate Improves(before: Verdict, after: Verdict) {
    || before == after
    || (before == Unsupported && after in {Partial, Supported})
    || (before == Partial && after == Supported)
  }

  ghost predicate CriteriaImprove(before: seq<CriterionAssessment>, after: seq<CriterionAssessment>) {
    |before| == |after| && forall i :: 0 <= i < |before| ==> Improves(before[i].verdict, after[i].verdict)
  }

  ghost predicate AssessmentsImprove(before: seq<GoalAssessment>, after: seq<GoalAssessment>) {
    && |before| == |after|
    && forall i :: 0 <= i < |before| ==>
         before[i].goalVersionId == after[i].goalVersionId && CriteriaImprove(before[i].criteria, after[i].criteria)
  }

  lemma {:induction false} TotalMonotone(before: seq<CriterionAssessment>, after: seq<CriterionAssessment>)
    requires CriteriaImprove(before, after)
    ensures AssessedCount(before) == AssessedCount(after)
    ensures Total(before) <= Total(after)
  {
    if before != [] {
      TotalMonotone(before[..|before| - 1], after[..|after| - 1]);
      assert Improves(before[|before| - 1].verdict, after[|after| - 1].verdict);
    }
  }

  lemma GoalScoreMonotone(before: seq<CriterionAssessment>, after: seq<CriterionAssessment>)
    requires CriteriaImprove(before, after)
    ensures GoalScore(before).Some? <==> GoalScore(after).Some?
    ensures GoalScore(before).Some? ==> GoalScore(before).value <= GoalScore(after).value
  {
    TotalMonotone(before, after);
    if AssessedCount(before) > 0 {
      QuotientMonotone(Total(before), Total(after), AssessedCount(before) as real);
    }
  }

  lemma QuotientMonotone(x: real, y: real, d: real)
    requires x <= y && d > 0.0
    ensures x / d <= y / d
  {
    assert (x / d) * d == x && (y / d) * d == y;
    ProductOrder(y / d, x / d, d);
  }

  ghost predicate FoundImproves(before: map<string, GoalAssessment>, after: map<string, GoalAssessment>) {
    before.Keys == after.Keys && forall id :: id in before ==> CriteriaImprove(before[id].criteria, after[id].criteria)
  }

  lemma {:induction false} IndexImproves(before: seq<GoalAssessment>, after: seq<GoalAssessment>)
    requires AssessmentsImprove(before, after)
    ensures FoundImproves(ByGoal(before), ByGoal(after))
  {
    hide CriteriaImprove;
    if before != [] {
      IndexImproves(before[..|before| - 1], after[..|after| - 1]);
    }
  }

  lemma {:induction false} WeightMonotone(
    goals: seq<GoalVersion>, before: map<string, GoalAssessment>, after: map<string, GoalAssessment>)
    requires FoundImproves(before, after)
    ensures IncludedWeight(goals, before) == IncludedWeight(goals, after)
    ensures WeightedTotal(goals, before) <= WeightedTotal(goals, after)
  {
    hide Contribution, Weight;
    if goals != [] {
      WeightMonotone(goals[..|goals| - 1], before, after);
      ContributionMonotone(goals[|goals| - 1], before, after);
    }
  }

  lemma ContributionMonotone(goal: GoalVersion, before: map<string, GoalAssessment>, after: map<string, GoalAssessment>)
    requires FoundImproves(before, after)
    ensures Weight(goal, before) == Weight(goal, after)
    ensures Contribution(goal, before) <= Contribution(goal, after)
  {
    hide GoalScore;
    if goal.id in before {
      GoalScoreMonotone(before[goal.id].criteria, after[goal.id].criteria);
      if ScoreOf(goal, before).Some? {
        ScaledMonotone(ScoreOf(goal, before).value, ScoreOf(goal, after).value, goal.priority);
      }
    }
  }

  lemma ScaledMonotone(x: real, y: real, w: nat)
    requires x <= y
    ensures x * w as real <= y * w as real
  {
    assert (y - x) * w as real >= 0.0;
  }

  /** Coverage never falls, and never appears or disappears, when verdicts move up. */
  lemma CoverageIsMonotone(goals: seq<GoalVersion>, before: seq<GoalAssessment>, after: seq<GoalAssessment>)
    requires AssessmentsImprove(before, after)
    ensures var x, y := Coverage(goals, before), Coverage(goals, after);
            (x.Some? <==> y.Some?) && (x.Some? ==> x.value <= y.value)
  {
    IndexImproves(before, after);
    var found, found' := ByGoal(before), ByGoal(after);
    WeightMonotone(goals, found, found');
    var weight := IncludedWeight(goals, found);
    if weight > 0.0 {
      QuotientMonotone(WeightedTotal(goals, found), WeightedTotal(goals, found'), weight);
    }
  }

  // The score in counts.

  /** How many criteria have the verdict. */
  ghost function Count(criteria: seq<CriterionAssessment>, verdict: Verdict): nat {
    |set i | 0 <= i < |criteria| && criteria[i].verdict == verdict|
  }

  lemma CountLast(criteria: seq<CriterionAssessment>, verdict: Verdict)
    requires criteria != []
    ensures var last := |criteria| - 1;
            Count(criteria, verdict)
            == Count(criteria[..last], verdict) + (if criteria[last].verdict == verdict then 1 else 0)
  {
    var last := |criteria| - 1;
    var init := criteria[..last];
    var a := set i | 0 <= i < |init| && init[i].verdict == verdict;
    var b := set i | 0 <= i < |criteria| && criteria[i].verdict == verdict;
    assert forall i :: 0 <= i < last ==> init[i] == criteria[i];
    assert a <= b && b <= a + {last} && (last in b <==> criteria[last].verdict == verdict);
    assert b == if last in b then a + {last} else a;
  }

  lemma {:induction false} TotalCounts(criteria: seq<CriterionAssessment>)
    ensures var s, p, u := Count(criteria, Supported), Count(criteria, Partial), Count(criteria, Unsupported);
            && AssessedCount(criteria) == s + p + u
            && |criteria| == s + p + u + Count(criteria, Unverified)
            && Total(criteria) == s as real + p as real / 2.0
  {
    hide Count;
    if criteria == [] {
      NothingCounts(criteria);
    } else {
      TotalCounts(criteria[..|criteria| - 1]);
      CountLast(criteria, Supported);
      CountLast(criteria, Partial);
      CountLast(criteria, Unsupported);
      CountLast(criteria, Unverified);
    }
  }

  lemma NothingCounts(criteria: seq<CriterionAssessment>)
    requires criteria == []
    ensures forall v :: Count(criteria, v) == 0
  {
    forall v ensures Count(criteria, v) == 0 {
      assert (set i | 0 <= i < |criteria| && criteria[i].verdict == v) == {};
    }
  }

  /** A supported criterion counts fully, a partial one half, an unsupported one not, an unverified one is left out. */
  lemma GoalScoreCounts(criteria: seq<CriterionAssessment>)
    ensures var s, p, u := Count(criteria, Supported), Count(criteria, Partial), Count(criteria, Unsupported);
            GoalScore(criteria)
            == if s + p + u == 0 then None else Some((s as real + p as real / 2.0) / (s + p + u) as real)
  {
    hide Count;
    TotalCounts(criteria);
  }

  /** The verdict of a goal: the one that all its assessed criteria share, or partial. */
  lemma VerdictCounts(criteria: seq<CriterionAssessment>)
    ensures var s, p, u := Count(criteria, Supported), Count(criteria, Partial), Count(criteria, Unsupported);
            AggregateGoal(criteria)
            == if s + p + u == 0 then Unverified
               else if p + u == 0 then Supported
               else if s + p == 0 then Unsupported
               else Partial
  {
    hide Count, AggregateGoal, AssessedOf, All;
    TotalCounts(criteria);
    GoalScoreMeansVerdict(criteria);
    var s, p, u := Count(criteria, Supported), Count(criteria, Partial), Count(criteria, Unsupported);
    if s + p + u > 0 {
      Quotient(Total(criteria), (s + p + u) as real);
    }
    OneVerdict(criteria);
  }

  lemma OneVerdict(criteria: seq<CriterionAssessment>)
    ensures AggregateGoal(criteria) in {Unverified, Supported, Unsupported, Partial}
  {
  }

  /** The last assessment of a goal is the one that counts. */
  lemma {:induction false} LastAssessmentCounts(assessments: seq<GoalAssessment>, id: string)
    ensures id in ByGoal(assessments) <==> exists i :: 0 <= i < |assessments| && assessments[i].goalVersionId == id
    ensures forall i :: 0 <= i < |assessments| && assessments[i].goalVersionId == id
                        && (forall j :: i < j < |assessments| ==> assessments[j].goalVersionId != id)
                        ==> ByGoal(assessments)[id] == assessments[i]
  {
    if assessments != [] {
      var n := |assessments| - 1;
      var init := assessments[..n];
      LastAssessmentCounts(init, id);
      assert forall i :: 0 <= i < n ==> init[i] == assessments[i];
      assert ByGoal(assessments) == ByGoal(init)[assessments[n].goalVersionId := assessments[n]];
    }
  }

  /** Goals add up, each with its priority. */
  lemma {:induction false} GoalsAddUp(a: seq<GoalVersion>, b: seq<GoalVersion>, found: map<string, GoalAssessment>)
    ensures WeightedTotal(a + b, found) == WeightedTotal(a, found) + WeightedTotal(b, found)
    ensures IncludedWeight(a + b, found) == IncludedWeight(a, found) + IncludedWeight(b, found)
    ensures AssessedIn(a + b, found) == AssessedIn(a, found) + AssessedIn(b, found)
    ensures UnverifiedIn(a + b, found) == UnverifiedIn(a, found) + UnverifiedIn(b, found)
    decreases |b|
  {
    hide Contribution, Weight, AssessedCount;
    if b == [] {
      assert a + b == a;
    } else {
      assert (a + b)[..|a + b| - 1] == a + b[..|b| - 1];
      GoalsAddUp(a, b[..|b| - 1], found);
    }
  }

  lemma NoGoals(found: map<string, GoalAssessment>)
    ensures WeightedTotal([], found) == 0.0 && IncludedWeight([], found) == 0.0
  {
  }

  lemma OneGoal(goal: GoalVersion, found: map<string, GoalAssessment>)
    ensures WeightedTotal([goal], found) == Contribution(goal, found)
    ensures IncludedWeight([goal], found) == Weight(goal, found)
    ensures AssessedIn([goal], found) == if goal.id in found then AssessedCount(found[goal.id].criteria) else 0
    ensures UnverifiedIn([goal], found)
         == if goal.id in found then |found[goal.id].criteria| - AssessedCount(found[goal.id].criteria)
            else |goal.criteria|
  {
    hide Contribution, Weight, AssessedCount;
    assert [goal][..0] == [];
  }

  /** One goal alone is covered as far as its last assessment says, whatever its priority. */
  lemma OneGoalIsCovered(goal: GoalVersion, assessments: seq<GoalAssessment>, i: nat)
    requires i < |assessments| && assessments[i].goalVersionId == goal.id && goal.priority >= 1
    requires forall j :: i < j < |assessments| ==> assessments[j].goalVersionId != goal.id
    ensures Coverage([goal], assessments) == GoalScore(assessments[i].criteria)
    ensures Score([goal], assessments).unverified == Count(assessments[i].criteria, Unverified)
    ensures Score([goal], assessments).assessed + Count(assessments[i].criteria, Unverified) == |assessments[i].criteria|
  {
    hide ByGoal, GoalScore, Count, AssessedCount, WeightedTotal, IncludedWeight;
    LastAssessmentCounts(assessments, goal.id);
    var found := ByGoal(assessments);
    OneGoal(goal, found);
    TotalCounts(assessments[i].criteria);
    var score := GoalScore(assessments[i].criteria);
    assert ScoreOf(goal, found) == score;
    if score.Some? {
      var w := goal.priority as real;
      assert IncludedWeight([goal], found) == w && WeightedTotal([goal], found) == score.value * w;
      CancelWeight(WeightedTotal([goal], found), score.value, w);
      assert Coverage([goal], assessments) == Some(WeightedTotal([goal], found) / w);
    }
  }

  lemma CancelWeight(t: real, x: real, w: real)
    requires w > 0.0 && t == x * w
    ensures t / w == x
  {
  }

  /** The goal `k` times. */
  function Copies(goal: GoalVersion, k: nat): (r: seq<GoalVersion>)
    ensures |r| == k
  {
    if k == 0 then [] else Copies(goal, k - 1) + [goal]
  }

  lemma OneMorePriority(goal: GoalVersion, found: map<string, GoalAssessment>, k: nat)
    ensures Contribution(goal.(priority := 0), found) == 0.0 && Weight(goal.(priority := 0), found) == 0.0
    ensures Contribution(goal.(priority := k + 1), found)
         == Contribution(goal.(priority := k), found) + Contribution(goal.(priority := 1), found)
    ensures Weight(goal.(priority := k + 1), found)
         == Weight(goal.(priority := k), found) + Weight(goal.(priority := 1), found)
  {
    hide GoalScore;
    var score := ScoreOf(goal, found);
    if score.Some? {
      MoreWeight(score.value, k);
    }
  }

  lemma {:induction false} CopiesAddUp(goal: GoalVersion, found: map<string, GoalAssessment>, k: nat)
    ensures var one, all := goal.(priority := 1), goal.(priority := k);
            && WeightedTotal(Copies(one, k), found) == Contribution(all, found)
            && IncludedWeight(Copies(one, k), found) == Weight(all, found)
  {
    hide Contribution, Weight, WeightedTotal, IncludedWeight, AssessedIn, UnverifiedIn, AssessedCount;
    var one := goal.(priority := 1);
    if k == 0 {
      NoGoals(found);
      OneMorePriority(goal, found, 0);
    } else {
      CopiesAddUp(goal, found, k - 1);
      GoalsAddUp(Copies(one, k - 1), [one], found);
      OneGoal(one, found);
      OneMorePriority(goal, found, k - 1);
    }
  }

  lemma MoreWeight(x: real, k: nat)
    ensures x * (k + 1) as real == x * k as real + x
  {
  }

  /** A goal of priority `k` counts like `k` goals of priority 1. */
  lemma PriorityIsRepetition(
      a: seq<GoalVersion>, goal: GoalVersion, b: seq<GoalVersion>, k: nat, assessments: seq<GoalAssessment>)
    ensures Coverage(a + [goal.(priority := k)] + b, assessments)
         == Coverage(a + Copies(goal.(priority := 1), k) + b, assessments)
  {
    hide ByGoal, Contribution, Weight, WeightedTotal, IncludedWeight, Copies;
    var found, one, all := ByGoal(assessments), Copies(goal.(priority := 1), k), [goal.(priority := k)];
    CopiesAddUp(goal, found, k);
    OneGoal(goal.(priority := k), found);
    GoalsAddUp(a, all, found);
    GoalsAddUp(a + all, b, found);
    GoalsAddUp(a, one, found);
    GoalsAddUp(a + one, b, found);
  }

  /** One supported and one unsupported criterion weigh as much as two partial ones. */
  lemma HalvesBalance(before: seq<CriterionAssessment>, x: CriterionAssessment, y: CriterionAssessment)
    ensures var mixed := before + [x.(verdict := Supported), y.(verdict := Unsupported)];
            var even := before + [x.(verdict := Partial), y.(verdict := Partial)];
            GoalScore(mixed) == GoalScore(even)
  {
    TwoMore(before, x.(verdict := Supported), y.(verdict := Unsupported));
    TwoMore(before, x.(verdict := Partial), y.(verdict := Partial));
  }

  lemma TwoMore(before: seq<CriterionAssessment>, x: CriterionAssessment, y: CriterionAssessment)
    ensures Total(before + [x, y]) == Total(before) + Value(x.verdict) + Value(y.verdict)
    ensures AssessedCount(before + [x, y])
         == AssessedCount(before) + (if x.verdict == Unverified then 0 else 1) + (if y.verdict == Unverified then 0 else 1)
  {
    var all, n := before + [x, y], |before|;
    assert all[..n + 1] == before + [x] && all[..n + 1][..n] == before;
  }
}
