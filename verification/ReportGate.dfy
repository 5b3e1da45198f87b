/**
 The gate in front of the ledger: a report is signed only after every claim in it is tied to the
 approved goals, the registered repositories and verifiable evidence.

 Git and hashing are parameters of the gate.
 */
module ReportGate {
  import opened Text
  import opened Common
  import opened Model
  import opened Ledger
  import Scoring
  import opened Replay

  /** Answers from outside: commit resolution, evidence verification, and the goal-set hash. */
  datatype Outside = Outside(
    resolve: (string, string) -> Option<string>, verify: EvidenceRef -> bool, goalSetHash: seq<GoalVersion> -> string)

  predicate Distinct<T(==)>(xs: seq<T>) {
    forall i, j :: 0 <= i < j < |xs| ==> xs[i] != xs[j]
  }

  function Members<T(==)>(xs: seq<T>): set<T> {
    set x | x in xs
  }

  lemma {:induction false} DistinctIffSameSize<T>(xs: seq<T>)
    ensures |Members(xs)| <= |xs|
    ensures |Members(xs)| == |xs| <==> Distinct(xs)
  {
    if xs != [] {
      var init, last := xs[..|xs| - 1], xs[|xs| - 1];
      assert xs == init + [last];
      DistinctIffSameSize(init);
      assert Members(xs) == Members(init) + {last};
      if last in init {
        assert Members(xs) == Members(init);
        var i :| 0 <= i < |init| && init[i] == last;
        assert xs[i] == xs[|init|];
      } else {
        assert forall i, j :: 0 <= i < j < |init| ==> xs[i] == init[i] && xs[j] == init[j];
        assert forall i :: 0 <= i < |init| ==> xs[i] == init[i] && init[i] != last;
        assert Distinct(init) <==> Distinct(xs);
      }
    }
  }

  predicate IsFullObjectId(value: string) {
    (|value| == 40 || |value| == 64) && AllHex(value)
  }

  predicate EvidenceShaped(e: EvidenceRef) {
    && !Blank(e.repositoryId)
    && IsFullObjectId(e.commitSha)
    && IsFullObjectId(e.blobOid)
    && |e.contentHash| == 64
    && AllHex(e.contentHash)
    && !Blank(e.path)
    && 0 < e.startLine <= e.endLine
  }

  // What the gate demands.

  predicate MetadataComplete(report: Report) {
    && !Blank(report.id) && !Blank(report.provider) && !Blank(report.providerVersion) && !Blank(report.goalSetHash)
    && report.repositories != [] && report.goalVersionIds != []
  }

  function RepositoryIds(report: Report): seq<string> {
    seq(|report.repositories|, i requires 0 <= i < |report.repositories| => report.repositories[i].repositoryId)
  }

  predicate RepositoriesFrozen(report: Report, content: Content) {
    && Distinct(RepositoryIds(report))
    && forall i :: 0 <= i < |report.repositories| ==>
         report.repositories[i].repositoryId in content.repositories
         && IsFullObjectId(report.repositories[i].commitSha)
  }

  predicate RepositoriesVerifiable(report: Report, local: seq<string>, o: Outside) {
    && Distinct(local)
    && |local| == |report.repositories|
    && forall i :: 0 <= i < |report.repositories| ==>
         var frozen := report.repositories[i];
         frozen.repositoryId in local && o.resolve(frozen.repositoryId, frozen.commitSha) == Some(frozen.commitSha)
  }

  function FrozenGoals(ids: seq<string>, goals: Goals): seq<GoalVersion>
    requires forall i :: 0 <= i < |ids| ==> ids[i] in goals.versions
  {
    seq(|ids|, i requires 0 <= i < |ids| => goals.versions[ids[i]])
  }

  predicate GoalsMatch(report: Report, goals: Goals, o: Outside) {
    && Distinct(report.goalVersionIds)
    && Members(report.goalVersionIds) == goals.approved.Values
    && (forall i :: 0 <= i < |report.goalVersionIds| ==> report.goalVersionIds[i] in goals.versions)
    && report.goalSetHash == o.goalSetHash(FrozenGoals(report.goalVersionIds, goals))
  }

  function CriterionIds(criteria: seq<Criterion>): seq<string> {
    seq(|criteria|, i requires 0 <= i < |criteria| => criteria[i].id)
  }

  function AssessedIds(criteria: seq<CriterionAssessment>): seq<string> {
    seq(|criteria|, i requires 0 <= i < |criteria| => criteria[i].criterionId)
  }

  predicate AssessmentHolds(assessment: GoalAssessment, goals: Goals) {
    && assessment.goalVersionId in goals.versions
    && Members(CriterionIds(goals.versions[assessment.goalVersionId].criteria))
       == Members(AssessedIds(assessment.criteria))
    && Distinct(AssessedIds(assessment.criteria))
    && assessment.verdict == Scoring.AggregateGoal(assessment.criteria)
    && forall i :: 0 <= i < |assessment.criteria| && assessment.criteria[i].verdict in {Supported, Partial}
                   ==> assessment.criteria[i].evidence != []
  }

  function AssessedGoals(report: Report): seq<string> {
    seq(|report.assessments|, i requires 0 <= i < |report.assessments| => report.assessments[i].goalVersionId)
  }

  predicate AssessmentsCover(report: Report, goals: Goals) {
    && Distinct(AssessedGoals(report))
    && Members(AssessedGoals(report)) == Members(report.goalVersionIds)
    && forall i :: 0 <= i < |report.assessments| ==> AssessmentHolds(report.assessments[i], goals)
  }

  ghost predicate ScoreMatches(report: Report, goals: Goals)
    requires forall i :: 0 <= i < |report.goalVersionIds| ==> report.goalVersionIds[i] in goals.versions
  {
    var score := Scoring.Score(FrozenGoals(report.goalVersionIds, goals), report.assessments);
    report.coverage == score.coverage && report.unverifiedCriteria == score.unverified
  }

  predicate Subset(ids: seq<string>, allowed: seq<string>) {
    forall i :: 0 <= i < |ids| ==> ids[i] in allowed
  }

  predicate ArchitectureHolds(report: Report) {
    forall i :: 0 <= i < |report.architecture| ==>
      var claim := report.architecture[i];
      && !Blank(claim.id) && !Blank(claim.component) && !Blank(claim.summary) && claim.evidence != []
      && Subset(claim.affectedGoalVersionIds, report.goalVersionIds)
      && forall j :: 0 <= j < i ==> report.architecture[j].id != claim.id
  }

  predicate RecommendationsHold(report: Report) {
    forall i :: 0 <= i < |report.recommendations| ==>
      var item := report.recommendations[i];
      && !Blank(item.id) && !Blank(item.title) && item.evidence != [] && item.goalVersionIds != []
      && Subset(item.goalVersionIds, report.goalVersionIds)
      && forall j :: 0 <= j < i ==> report.recommendations[j].id != item.id && report.recommendations[j].rank != item.rank
  }

  function FlattenCriteria(criteria: seq<CriterionAssessment>): seq<EvidenceRef> {
    if criteria == [] then []
    else FlattenCriteria(criteria[..|criteria| - 1]) + criteria[|criteria| - 1].evidence
  }

  function AssessmentEvidence(assessments: seq<GoalAssessment>): seq<EvidenceRef> {
    if assessments == [] then []
    else AssessmentEvidence(assessments[..|assessments| - 1]) + FlattenCriteria(assessments[|assessments| - 1].criteria)
  }

  function ClaimEvidence(claims: seq<ArchitectureClaim>): seq<EvidenceRef> {
    if claims == [] then [] else ClaimEvidence(claims[..|claims| - 1]) + claims[|claims| - 1].evidence
  }

  function ItemEvidence(items: seq<Recommendation>): seq<EvidenceRef> {
    if items == [] then [] else ItemEvidence(items[..|items| - 1]) + items[|items| - 1].evidence
  }

  function AllEvidence(report: Report): seq<EvidenceRef> {
    AssessmentEvidence(report.assessments) + ClaimEvidence(report.architecture) + ItemEvidence(report.recommendations)
  }

  /** Shaped, bound to the frozen commit of a frozen repository that has a verifier, and verified. */
  predicate EvidenceBound(e: EvidenceRef, report: Report, local: seq<string>, o: Outside) {
    && EvidenceShaped(e)
    && (exists i :: 0 <= i < |report.repositories| && report.repositories[i].repositoryId == e.repositoryId
                    && report.repositories[i].commitSha == e.commitSha)
    && e.repositoryId in local
    && o.verify(e)
  }

  ghost predicate Accepted(report: Report, goals: Goals, content: Content, local: seq<string>, o: Outside) {
    && MetadataComplete(report)
    && RepositoriesFrozen(report, content)
    && RepositoriesVerifiable(report, local, o)
    && GoalsMatch(report, goals, o)
    && AssessmentsCover(report, goals)
    && ScoreMatches(report, goals)
    && ArchitectureHolds(report)
    && RecommendationsHold(report)
    && forall i :: 0 <= i < |AllEvidence(report)| ==> EvidenceBound(AllEvidence(report)[i], report, local, o)
  }

  // The gate's loops.

  method CheckRepositories(report: Report, content: Content) returns (ok: bool)
    ensures ok <==> RepositoriesFrozen(report, content)
  {
    var seen: set<string> := {};
    for i := 0 to |report.repositories|
      invariant seen == set j | 0 <= j < i :: report.repositories[j].repositoryId
      invariant forall j, k :: 0 <= j < k < i ==> RepositoryIds(report)[j] != RepositoryIds(report)[k]
      invariant forall j :: 0 <= j < i ==> report.repositories[j].repositoryId in content.repositories
                                           && IsFullObjectId(report.repositories[j].commitSha)
    {
      var frozen := report.repositories[i];
      if frozen.repositoryId in seen {
        var j :| 0 <= j < i && report.repositories[j].repositoryId == frozen.repositoryId;
        assert RepositoryIds(report)[j] == RepositoryIds(report)[i];
        return false;
      }
      if frozen.repositoryId !in content.repositories || !IsFullObjectId(frozen.commitSha) { return false; }
      seen := seen + {frozen.repositoryId};
    }
    ok := true;
  }

  method CheckVerifiers(report: Report, local: seq<string>, o: Outside) returns (ok: bool)
    ensures ok <==> RepositoriesVerifiable(report, local, o)
  {
    var verifiers := Members(local);
    DistinctIffSameSize(local);
    if |verifiers| != |local| || |verifiers| != |report.repositories| { return false; }
    for i := 0 to |report.repositories|
      invariant forall j :: 0 <= j < i ==>
                  report.repositories[j].repositoryId in local
                  && o.resolve(report.repositories[j].repositoryId, report.repositories[j].commitSha)
                     == Some(report.repositories[j].commitSha)
    {
      var frozen := report.repositories[i];
      if frozen.repositoryId !in verifiers { return false; }
      var resolved := o.resolve(frozen.repositoryId, frozen.commitSha);
      if resolved != Some(frozen.commitSha) { return false; }
    }
    ok := true;
  }

  method CheckGoals(report: Report, goals: Goals, o: Outside) returns (ok: bool)
    ensures ok <==> GoalsMatch(report, goals, o)
  {
    var ids := report.goalVersionIds;
    var reportGoals := Members(ids);
    DistinctIffSameSize(ids);
    if |reportGoals| != |ids| || reportGoals != goals.approved.Values { return false; }
    var frozen: seq<GoalVersion> := [];
    for i := 0 to |ids|
      invariant forall j :: 0 <= j < i ==> ids[j] in goals.versions
      invariant |frozen| == i && forall j :: 0 <= j < i ==> frozen[j] == goals.versions[ids[j]]
    {
      if ids[i] !in goals.versions { return false; }
      frozen := frozen + [goals.versions[ids[i]]];
    }
    assert frozen == FrozenGoals(ids, goals);
    ok := report.goalSetHash == o.goalSetHash(frozen);
  }

  method CheckAssessment(assessment: GoalAssessment, goals: Goals) returns (ok: bool)
    ensures ok <==> AssessmentHolds(assessment, goals)
  {
    hide Scoring.AggregateGoal;
    if assessment.goalVersionId !in goals.versions { return false; }
    var expected := Members(CriterionIds(goals.versions[assessment.goalVersionId].criteria));
    var actual := Members(AssessedIds(assessment.criteria));
    DistinctIffSameSize(AssessedIds(assessment.criteria));
    if expected != actual || |actual| != |assessment.criteria| { return false; }
    if assessment.verdict != Scoring.AggregateGoal(assessment.criteria) { return false; }
    for i := 0 to |assessment.criteria|
      invariant forall j :: 0 <= j < i && assessment.criteria[j].verdict in {Supported, Partial}
                            ==> assessment.criteria[j].evidence != []
    {
      if assessment.criteria[i].verdict in {Supported, Partial} && assessment.criteria[i].evidence == [] {
        return false;
      }
    }
    ok := true;
  }

  method CheckAssessments(report: Report, goals: Goals) returns (ok: bool)
    ensures ok <==> AssessmentsCover(report, goals)
  {
    hide AssessmentHolds;
    var ids := AssessedGoals(report);
    var seen: set<string> := {};
    for i := 0 to |report.assessments|
      invariant seen == Members(ids[..i])
      invariant forall j, k :: 0 <= j < k < i ==> ids[j] != ids[k]
      invariant forall j :: 0 <= j < i ==> ids[j] in report.goalVersionIds
      invariant forall j :: 0 <= j < i ==> AssessmentHolds(report.assessments[j], goals)
    {
      var assessment := report.assessments[i];
      assert ids[i] == assessment.goalVersionId;
      assert ids[..i + 1] == ids[..i] + [ids[i]];
      if assessment.goalVersionId in seen {
        var j :| 0 <= j < i && ids[..i][j] == ids[i];
        assert ids[j] == ids[i];
        return false;
      }
      if assessment.goalVersionId !in report.goalVersionIds {
        assert ids[i] in Members(ids) && ids[i] !in Members(report.goalVersionIds);
        return false;
      }
      var holds := CheckAssessment(assessment, goals);
      if !holds { return false; }
      seen := seen + {assessment.goalVersionId};
    }
    assert ids[..|ids|] == ids;
    ok := seen == Members(report.goalVersionIds);
  }

  method CheckArchitecture(report: Report) returns (ok: bool)
    ensures ok <==> ArchitectureHolds(report)
  {
    var seen: set<string> := {};
    for i := 0 to |report.architecture|
      invariant seen == set j | 0 <= j < i :: report.architecture[j].id
      invariant ArchitectureHolds(report.(architecture := report.architecture[..i]))
    {
      var claim := report.architecture[i];
      if Blank(claim.id) || Blank(claim.component) || Blank(claim.summary) || claim.evidence == []
         || !Subset(claim.affectedGoalVersionIds, report.goalVersionIds) || claim.id in seen {
        return false;
      }
      seen := seen + {claim.id};
    }
    assert report.architecture[..|report.architecture|] == report.architecture;
    ok := true;
  }

  method CheckRecommendations(report: Report) returns (ok: bool)
    ensures ok <==> RecommendationsHold(report)
  {
    var ids: set<string>, ranks: set<nat> := {}, {};
    for i := 0 to |report.recommendations|
      invariant ids == set j | 0 <= j < i :: report.recommendations[j].id
      invariant ranks == set j | 0 <= j < i :: report.recommendations[j].rank
      invariant RecommendationsHold(report.(recommendations := report.recommendations[..i]))
    {
      var item := report.recommendations[i];
      if Blank(item.id) || Blank(item.title) || item.evidence == [] || item.goalVersionIds == []
         || !Subset(item.goalVersionIds, report.goalVersionIds) || item.id in ids || item.rank in ranks {
        return false;
      }
      ids, ranks := ids + {item.id}, ranks + {item.rank};
    }
    assert report.recommendations[..|report.recommendations|] == report.recommendations;
    ok := true;
  }

  method CheckEvidence(report: Report, local: seq<string>, o: Outside) returns (ok: bool)
    ensures ok <==> forall i :: 0 <= i < |AllEvidence(report)| ==> EvidenceBound(AllEvidence(report)[i], report, local, o)
  {
    hide EvidenceBound;
    var evidence := AllEvidence(report);
    for i := 0 to |evidence|
      invariant forall j :: 0 <= j < i ==> EvidenceBound(evidence[j], report, local, o)
    {
      if !EvidenceBound(evidence[i], report, local, o) { return false; }
    }
    ok := true;
  }

  /** Accepts exactly the reports that meet every demand. */
  method ValidateReport(report: Report, goals: Goals, content: Content, local: seq<string>, o: Outside)
    returns (ok: bool)
    ensures ok <==> Accepted(report, goals, content, local, o)
  {
    hide RepositoriesFrozen, RepositoriesVerifiable, AssessmentsCover, ArchitectureHolds, RecommendationsHold,
         EvidenceBound, AllEvidence, Scoring.Score, MetadataComplete;
    if !MetadataComplete(report) { return false; }
    ok := CheckRepositories(report, content);
    if !ok { return; }
    ok := CheckVerifiers(report, local, o);
    if !ok { return; }
    ok := CheckGoals(report, goals, o);
    if !ok { return; }
    ok := CheckAssessments(report, goals);
    if !ok { return; }
    var score := Scoring.ScoreReport(FrozenGoals(report.goalVersionIds, goals), report.assessments);
    if report.coverage != score.coverage || report.unverifiedCriteria != score.unverified { return false; }
    ok := CheckArchitecture(report);
    if !ok { return; }
    ok := CheckRecommendations(report);
    if !ok { return; }
    ok := CheckEvidence(report, local, o);
  }

  // What acceptance is worth.

  /**
   Every approved goal version has exactly one assessment, and every criterion of it is assessed in
   that assessment, exactly once.
   */
  lemma AcceptedReportCoversEveryCriterion(
    report: Report, goals: Goals, content: Content, local: seq<string>, o: Outside, goal: string, criterion: string)
    requires Accepted(report, goals, content, local, o)
    requires goal in goals.approved
    requires goals.approved[goal] in goals.versions
             && criterion in CriterionIds(goals.versions[goals.approved[goal]].criteria)
    ensures exists i :: 0 <= i < |report.assessments| && report.assessments[i].goalVersionId == goals.approved[goal]
                        && criterion in AssessedIds(report.assessments[i].criteria)
    ensures Distinct(AssessedGoals(report))
    ensures forall i :: 0 <= i < |report.assessments| ==> Distinct(AssessedIds(report.assessments[i].criteria))
  {
    var version := goals.approved[goal];
    var ids := AssessedGoals(report);
    assert version in goals.approved.Values;
    assert version in Members(report.goalVersionIds);
    assert version in Members(ids);
    var i :| 0 <= i < |ids| && ids[i] == version;
    assert AssessmentHolds(report.assessments[i], goals);
    assert criterion in Members(CriterionIds(goals.versions[version].criteria));
    assert criterion in Members(AssessedIds(report.assessments[i].criteria));
    assert forall j :: 0 <= j < |report.assessments| ==> AssessmentHolds(report.assessments[j], goals);
  }

  /** The envelope the store signs for a report: a fresh id, the current epoch, the founding device, sorting last. */
  predicate CompletionEnvelope(s: State, log: seq<Envelope>, e: Envelope, report: Report) {
    && e.event == ReportCompleted(report)
    && e.signatureValid
    && s.workspace.id != "" && e.workspaceId == s.workspace.id
    && e.epoch == s.workspace.epoch
    && e.eventId !in s.applied
    && Authorized(s.workspace, e)
    && forall i :: 0 <= i < |log| ==> Before(log[i], e)
  }

  /**
   A report that passed the gate never makes its log unreplayable: with its completion appended the
   log rebuilds, and to exactly the state that applying the one event gives.
   */
  lemma AcceptedReportKeepsLogReplayable(
    log: seq<Envelope>, e: Envelope, report: Report, local: seq<string>, o: Outside)
    requires Rebuild(log).Ok?
    requires var s := Rebuild(log).value;
             Accepted(report, s.goals, s.content, local, o) && CompletionEnvelope(s, log, e, report)
    ensures Rebuild(log + [e]).Ok?
    ensures Rebuild(log + [e]) == Apply(Rebuild(log).value, e)
    ensures Rebuild(log + [e]).value.history == WithReport(Rebuild(log).value.history, e.eventId, report)
  {
    var s := Rebuild(log).value;
    hide Rebuild, WithReport, Authorized, ScoreMatches, AssessmentsCover;
    assert ApprovedSetMatches(s.goals, report);
    assert Apply(s, e).Ok? && Apply(s, e).value.history == WithReport(s.history, e.eventId, report);
    RebuildIsIncremental(log, e);
  }
}
