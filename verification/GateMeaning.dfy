/**
 What acceptance by the report gate means, demand by demand, in the terms of the report alone: every
 reference is looked for where it stands, and nothing is collected, counted or indexed on the way.
 */
module GateMeaning {
  import opened Text
  import opened Common
  import opened Model
  import opened Ledger
  import Scoring
  import opened ReportGate

  /** Something is left after trimming. */
  predicate Visible(s: string) {
    exists i :: 0 <= i < |s| && !IsWhitespace(s[i])
  }

  predicate Hex(s: string, digits: nat) {
    |s| == digits && forall i :: 0 <= i < |s| ==> '0' <= s[i] <= '9' || 'a' <= s[i] <= 'f' || 'A' <= s[i] <= 'F'
  }

  /** SHA-1 or SHA-256, in full. */
  predicate ObjectId(s: string) {
    Hex(s, 40) || Hex(s, 64)
  }

  /** The reference is complete, of a frozen repository at its frozen commit, and verified. */
  ghost predicate Checked(e: EvidenceRef, report: Report, o: Outside) {
    && Visible(e.repositoryId) && ObjectId(e.commitSha) && ObjectId(e.blobOid) && Hex(e.contentHash, 64)
    && Visible(e.path) && 1 <= e.startLine <= e.endLine
    && (exists f :: f in report.repositories && f.repositoryId == e.repositoryId && f.commitSha == e.commitSha)
    && o.verify(e)
  }

  ghost predicate AllChecked(evidence: seq<EvidenceRef>, report: Report, o: Outside) {
    forall e :: e in evidence ==> Checked(e, report, o)
  }

  // Evidence: where the gate looks.

  lemma {:induction false} InCriteria(criteria: seq<CriterionAssessment>, e: EvidenceRef)
    ensures e in FlattenCriteria(criteria) <==> exists c :: c in criteria && e in c.evidence
  {
    if criteria != [] {
      InCriteria(criteria[..|criteria| - 1], e);
      assert criteria == criteria[..|criteria| - 1] + [criteria[|criteria| - 1]];
    }
  }

  lemma {:induction false} InAssessments(assessments: seq<GoalAssessment>, e: EvidenceRef)
    ensures e in AssessmentEvidence(assessments)
            <==> exists a, c :: a in assessments && c in a.criteria && e in c.evidence
  {
    hide FlattenCriteria;
    if assessments != [] {
      var last := assessments[|assessments| - 1];
      InAssessments(assessments[..|assessments| - 1], e);
      assert assessments == assessments[..|assessments| - 1] + [last];
      InCriteria(last.criteria, e);
    }
  }

  lemma {:induction false} InClaims(claims: seq<ArchitectureClaim>, e: EvidenceRef)
    ensures e in ClaimEvidence(claims) <==> exists c :: c in claims && e in c.evidence
  {
    if claims != [] {
      InClaims(claims[..|claims| - 1], e);
      assert claims == claims[..|claims| - 1] + [claims[|claims| - 1]];
    }
  }

  lemma {:induction false} InItems(items: seq<Recommendation>, e: EvidenceRef)
    ensures e in ItemEvidence(items) <==> exists c :: c in items && e in c.evidence
  {
    if items != [] {
      InItems(items[..|items| - 1], e);
      assert items == items[..|items| - 1] + [items[|items| - 1]];
    }
  }

  /** The references of a report are those of its criteria, its claims and its recommendations. */
  lemma AllEvidenceIs(report: Report, e: EvidenceRef)
    ensures e in AllEvidence(report) <==>
            || (exists a, c :: a in report.assessments && c in a.criteria && e in c.evidence)
            || (exists c :: c in report.architecture && e in c.evidence)
            || (exists c :: c in report.recommendations && e in c.evidence)
  {
    InAssessments(report.assessments, e);
    InClaims(report.architecture, e);
    InItems(report.recommendations, e);
  }

  /** Each reference is checked where it stands. */
  ghost predicate EverythingIsChecked(report: Report, o: Outside) {
    && (forall a, c :: a in report.assessments && c in a.criteria ==> AllChecked(c.evidence, report, o))
    && (forall c :: c in report.architecture ==> AllChecked(c.evidence, report, o))
    && forall c :: c in report.recommendations ==> AllChecked(c.evidence, report, o)
  }

  lemma CheckedIffBound(e: EvidenceRef, report: Report, local: seq<string>, o: Outside)
    requires forall i :: 0 <= i < |report.repositories| ==> report.repositories[i].repositoryId in local
    ensures Checked(e, report, o) <==> EvidenceBound(e, report, local, o)
  {
    ObjectIdIff(e.commitSha);
    ObjectIdIff(e.blobOid);
    VisibleIff(e.repositoryId);
    VisibleIff(e.path);
    hide ObjectId, IsFullObjectId, Visible, Blank, IsWhitespace;
    if i :| 0 <= i < |report.repositories| && report.repositories[i].repositoryId == e.repositoryId
            && report.repositories[i].commitSha == e.commitSha {
      assert report.repositories[i] in report.repositories;
    }
  }

  lemma ObjectIdIff(s: string)
    ensures ObjectId(s) <==> IsFullObjectId(s)
  {
  }

  lemma VisibleIff(s: string)
    ensures Visible(s) <==> !Blank(s)
  {
  }

  lemma EvidenceIff(report: Report, local: seq<string>, o: Outside)
    requires forall i :: 0 <= i < |report.repositories| ==> report.repositories[i].repositoryId in local
    ensures EverythingIsChecked(report, o)
            <==> forall i :: 0 <= i < |AllEvidence(report)| ==> EvidenceBound(AllEvidence(report)[i], report, local, o)
  {
    hide AllEvidence, Checked, EvidenceBound;
    var all := AllEvidence(report);
    forall e
      ensures Checked(e, report, o) <==> EvidenceBound(e, report, local, o)
      ensures e in all <==>
              || (exists a, c :: a in report.assessments && c in a.criteria && e in c.evidence)
              || (exists c :: c in report.architecture && e in c.evidence)
              || (exists c :: c in report.recommendations && e in c.evidence)
    {
      CheckedIffBound(e, report, local, o);
      AllEvidenceIs(report, e);
    }
    assert EverythingIsChecked(report, o) <==> forall e :: e in all ==> Checked(e, report, o);
  }

  // Repositories.

  /** Frozen once each, registered, at a full commit that its one local verifier resolves to itself. */
  ghost predicate RepositoriesAreSettled(report: Report, content: Content, local: seq<string>, o: Outside) {
    && (forall i, j :: 0 <= i < j < |report.repositories| ==>
          report.repositories[i].repositoryId != report.repositories[j].repositoryId)
    && (forall f :: f in report.repositories ==>
          f.repositoryId in content.repositories && ObjectId(f.commitSha)
          && o.resolve(f.repositoryId, f.commitSha) == Some(f.commitSha))
    && (forall i, j :: 0 <= i < j < |local| ==> local[i] != local[j])
    && forall id :: id in local <==> exists f :: f in report.repositories && f.repositoryId == id
  }

  lemma RepositoriesIff(report: Report, content: Content, local: seq<string>, o: Outside)
    ensures RepositoriesAreSettled(report, content, local, o)
            <==> RepositoriesFrozen(report, content) && RepositoriesVerifiable(report, local, o)
  {
    hide IsFullObjectId, ObjectId, Members, RepositoriesAreSettled, RepositoriesFrozen, RepositoriesVerifiable;
    if RepositoriesAreSettled(report, content, local, o) {
      SettledIsVerifiable(report, content, local, o);
    }
    if RepositoriesFrozen(report, content) && RepositoriesVerifiable(report, local, o) {
      VerifiableIsSettled(report, content, local, o);
    }
  }

  /** Lists without repetition and with the same members are equally long. */
  lemma SameMembersSameLength(a: seq<string>, b: seq<string>)
    requires Distinct(a) && Distinct(b) && forall x :: x in a ==> x in b
    ensures |a| <= |b|
    ensures |a| == |b| ==> forall x :: x in b ==> x in a
  {
    DistinctIffSameSize(a);
    DistinctIffSameSize(b);
    InclusionIsSmaller(Members(a), Members(b));
    assert forall x :: (x in a <==> x in Members(a)) && (x in b <==> x in Members(b));
  }

  lemma InclusionIsSmaller(a: set<string>, b: set<string>)
    requires a <= b
    ensures |a| <= |b|
    ensures |a| == |b| ==> a == b
  {
    assert b == a + (b - a) && a !! (b - a);
    assert |b| == |a| + |b - a|;
  }

  lemma IdsAre(report: Report)
    ensures forall id :: id in RepositoryIds(report) <==> exists f :: f in report.repositories && f.repositoryId == id
  {
    var ids := RepositoryIds(report);
    forall id | exists f :: f in report.repositories && f.repositoryId == id ensures id in ids {
      var f :| f in report.repositories && f.repositoryId == id;
      var i :| 0 <= i < |report.repositories| && report.repositories[i] == f;
      assert ids[i] == id;
    }
  }

  lemma SettledIsVerifiable(report: Report, content: Content, local: seq<string>, o: Outside)
    requires RepositoriesAreSettled(report, content, local, o)
    ensures RepositoriesFrozen(report, content) && RepositoriesVerifiable(report, local, o)
  {
    IdsAre(report);
    SameMembersSameLength(RepositoryIds(report), local);
    SameMembersSameLength(local, RepositoryIds(report));
    forall s ensures ObjectId(s) <==> IsFullObjectId(s) { ObjectIdIff(s); }
    hide IsFullObjectId, ObjectId;
    assert forall i :: 0 <= i < |report.repositories| ==> report.repositories[i] in report.repositories;
  }

  lemma VerifiableIsSettled(report: Report, content: Content, local: seq<string>, o: Outside)
    requires RepositoriesFrozen(report, content) && RepositoriesVerifiable(report, local, o)
    ensures RepositoriesAreSettled(report, content, local, o)
  {
    IdsAre(report);
    SameMembersSameLength(RepositoryIds(report), local);
    forall s ensures ObjectId(s) <==> IsFullObjectId(s) { ObjectIdIff(s); }
    hide IsFullObjectId, ObjectId;
    var ids := RepositoryIds(report);
    assert forall i :: 0 <= i < |ids| ==> ids[i] == report.repositories[i].repositoryId;
  }

  // Goals and assessments.

  /** The goal versions that the report names, in its order. */
  ghost predicate Named(frozen: seq<GoalVersion>, report: Report, goals: Goals) {
    && |frozen| == |report.goalVersionIds|
    && forall i :: 0 <= i < |frozen| ==>
         report.goalVersionIds[i] in goals.versions && frozen[i] == goals.versions[report.goalVersionIds[i]]
  }

  /** The approved versions, once each, hashed and scored in the report's order. */
  ghost predicate GoalsAreApproved(report: Report, goals: Goals, o: Outside) {
    && (forall i, j :: 0 <= i < j < |report.goalVersionIds| ==> report.goalVersionIds[i] != report.goalVersionIds[j])
    && (forall v :: v in report.goalVersionIds <==> exists g :: g in goals.approved && goals.approved[g] == v)
    && exists frozen :: Named(frozen, report, goals) && report.goalSetHash == o.goalSetHash(frozen)
                        && report.coverage == Scoring.Score(frozen, report.assessments).coverage
                        && report.unverifiedCriteria == Scoring.Score(frozen, report.assessments).unverified
  }

  lemma GoalsIff(report: Report, goals: Goals, o: Outside)
    ensures GoalsAreApproved(report, goals, o) <==> GoalsMatch(report, goals, o) && ScoreMatches(report, goals)
  {
    hide Scoring.Score;
    var ids := report.goalVersionIds;
    if GoalsAreApproved(report, goals, o) {
      var frozen :| Named(frozen, report, goals) && report.goalSetHash == o.goalSetHash(frozen)
                    && report.coverage == Scoring.Score(frozen, report.assessments).coverage
                    && report.unverifiedCriteria == Scoring.Score(frozen, report.assessments).unverified;
      assert frozen == FrozenGoals(ids, goals);
      assert Members(ids) == goals.approved.Values;
    }
    if GoalsMatch(report, goals, o) && ScoreMatches(report, goals) {
      assert Named(FrozenGoals(ids, goals), report, goals);
      assert forall v :: v in ids <==> v in Members(ids);
    }
  }

  predicate Asked(criteria: seq<Criterion>, id: string) {
    exists c :: c in criteria && c.id == id
  }

  predicate Answered(criteria: seq<CriterionAssessment>, id: string) {
    exists c :: c in criteria && c.criterionId == id
  }

  /** Each criterion of the goal has one result, the verdict follows from them, and claims of support are cited. */
  ghost predicate AssessmentIsComplete(a: GoalAssessment, goals: Goals) {
    && a.goalVersionId in goals.versions
    && (forall id :: Asked(goals.versions[a.goalVersionId].criteria, id) <==> Answered(a.criteria, id))
    && (forall i, j :: 0 <= i < j < |a.criteria| ==> a.criteria[i].criterionId != a.criteria[j].criterionId)
    && a.verdict == Scoring.AggregateGoal(a.criteria)
    && forall c :: c in a.criteria && (c.verdict == Supported || c.verdict == Partial) ==> c.evidence != []
  }

  lemma AssessmentIff(a: GoalAssessment, goals: Goals)
    ensures AssessmentIsComplete(a, goals) <==> AssessmentHolds(a, goals)
  {
    hide Scoring.AggregateGoal;
    if a.goalVersionId in goals.versions {
      var criteria := goals.versions[a.goalVersionId].criteria;
      CriterionIdsAre(criteria);
      AssessedIdsAre(a.criteria);
      hide CriterionIds, Asked, Answered;
      var asked, answered := CriterionIds(criteria), AssessedIds(a.criteria);
      assert forall id :: (id in asked <==> id in Members(asked)) && (id in answered <==> id in Members(answered));
      assert (forall id :: Asked(criteria, id) <==> Answered(a.criteria, id)) <==> Members(asked) == Members(answered);
      assert forall i :: 0 <= i < |a.criteria| ==> answered[i] == a.criteria[i].criterionId;
    }
  }

  lemma CriterionIdsAre(criteria: seq<Criterion>)
    ensures forall id :: id in CriterionIds(criteria) <==> Asked(criteria, id)
  {
    var ids := CriterionIds(criteria);
    forall id | Asked(criteria, id) ensures id in ids {
      var c :| c in criteria && c.id == id;
      var i :| 0 <= i < |criteria| && criteria[i] == c;
      assert ids[i] == id;
    }
  }

  lemma AssessedIdsAre(criteria: seq<CriterionAssessment>)
    ensures forall id :: id in AssessedIds(criteria) <==> Answered(criteria, id)
  {
    var ids := AssessedIds(criteria);
    forall id | Answered(criteria, id) ensures id in ids {
      var c :| c in criteria && c.criterionId == id;
      var i :| 0 <= i < |criteria| && criteria[i] == c;
      assert ids[i] == id;
    }
  }

  /** Every goal of the report has one complete assessment, and no other goal has one. */
  ghost predicate GoalsAreAssessed(report: Report, goals: Goals) {
    && (forall i, j :: 0 <= i < j < |report.assessments| ==>
          report.assessments[i].goalVersionId != report.assessments[j].goalVersionId)
    && (forall v :: v in report.goalVersionIds <==> exists a :: a in report.assessments && a.goalVersionId == v)
    && forall a :: a in report.assessments ==> AssessmentIsComplete(a, goals)
  }

  lemma AssessmentsIff(report: Report, goals: Goals)
    ensures GoalsAreAssessed(report, goals) <==> AssessmentsCover(report, goals)
  {
    hide AssessmentIsComplete, AssessmentHolds;
    forall a ensures AssessmentIsComplete(a, goals) <==> AssessmentHolds(a, goals) { AssessmentIff(a, goals); }
    AssessedGoalsAre(report);
    var ids := AssessedGoals(report);
    assert forall v :: v in ids <==> v in Members(ids);
    assert forall v :: v in report.goalVersionIds <==> v in Members(report.goalVersionIds);
    assert Distinct(ids) <==> forall i, j :: 0 <= i < j < |report.assessments| ==>
             report.assessments[i].goalVersionId != report.assessments[j].goalVersionId by {
      assert forall i :: 0 <= i < |ids| ==> ids[i] == report.assessments[i].goalVersionId;
    }
  }

  lemma AssessedGoalsAre(report: Report)
    ensures forall v :: v in AssessedGoals(report) <==> exists a :: a in report.assessments && a.goalVersionId == v
  {
    forall v | exists a :: a in report.assessments && a.goalVersionId == v ensures v in AssessedGoals(report) {
      var a :| a in report.assessments && a.goalVersionId == v;
      var i :| 0 <= i < |report.assessments| && report.assessments[i] == a;
      assert AssessedGoals(report)[i] == v;
    }
  }

  // Claims and recommendations.

  ghost predicate ClaimsAreLinked(report: Report) {
    && (forall i, j :: 0 <= i < j < |report.architecture| ==> report.architecture[i].id != report.architecture[j].id)
    && forall c :: c in report.architecture ==>
         && Visible(c.id) && Visible(c.component) && Visible(c.summary) && c.evidence != []
         && forall v :: v in c.affectedGoalVersionIds ==> v in report.goalVersionIds
  }

  lemma ClaimsIff(report: Report)
    ensures ClaimsAreLinked(report) <==> ArchitectureHolds(report)
  {
    forall s ensures Visible(s) <==> !Blank(s) { VisibleIff(s); }
    hide Visible, Blank;
    if ArchitectureHolds(report) {
      forall c | c in report.architecture
        ensures && Visible(c.id) && Visible(c.component) && Visible(c.summary) && c.evidence != []
                && forall v :: v in c.affectedGoalVersionIds ==> v in report.goalVersionIds
      {
        var i :| 0 <= i < |report.architecture| && report.architecture[i] == c;
      }
    }
    if ClaimsAreLinked(report) {
      assert forall i :: 0 <= i < |report.architecture| ==> report.architecture[i] in report.architecture;
    }
  }

  ghost predicate RecommendationsAreLinked(report: Report) {
    && (forall i, j :: 0 <= i < j < |report.recommendations| ==>
          report.recommendations[i].id != report.recommendations[j].id
          && report.recommendations[i].rank != report.recommendations[j].rank)
    && forall c :: c in report.recommendations ==>
         && Visible(c.id) && Visible(c.title) && c.evidence != [] && c.goalVersionIds != []
         && forall v :: v in c.goalVersionIds ==> v in report.goalVersionIds
  }

  lemma RecommendationsIff(report: Report)
    ensures RecommendationsAreLinked(report) <==> RecommendationsHold(report)
  {
    forall s ensures Visible(s) <==> !Blank(s) { VisibleIff(s); }
    hide Visible, Blank;
    if RecommendationsHold(report) {
      forall c | c in report.recommendations
        ensures && Visible(c.id) && Visible(c.title) && c.evidence != [] && c.goalVersionIds != []
                && forall v :: v in c.goalVersionIds ==> v in report.goalVersionIds
      {
        var i :| 0 <= i < |report.recommendations| && report.recommendations[i] == c;
      }
    }
    if RecommendationsAreLinked(report) {
      assert forall i :: 0 <= i < |report.recommendations| ==> report.recommendations[i] in report.recommendations;
    }
  }

  // The whole gate.

  ghost predicate Admissible(report: Report, goals: Goals, content: Content, local: seq<string>, o: Outside) {
    && Visible(report.id) && Visible(report.provider) && Visible(report.providerVersion) && Visible(report.goalSetHash)
    && report.repositories != [] && report.goalVersionIds != []
    && RepositoriesAreSettled(report, content, local, o)
    && GoalsAreApproved(report, goals, o)
    && GoalsAreAssessed(report, goals)
    && ClaimsAreLinked(report)
    && RecommendationsAreLinked(report)
    && EverythingIsChecked(report, o)
  }

  /** The gate accepts exactly the admissible reports. */
  lemma AcceptedIff(report: Report, goals: Goals, content: Content, local: seq<string>, o: Outside)
    ensures Accepted(report, goals, content, local, o) <==> Admissible(report, goals, content, local, o)
  {
    forall s ensures Visible(s) <==> !Blank(s) { VisibleIff(s); }
    hide Visible, Blank, RepositoriesAreSettled, RepositoriesFrozen, RepositoriesVerifiable, GoalsAreApproved, GoalsMatch,
         ScoreMatches, GoalsAreAssessed, AssessmentsCover, ClaimsAreLinked, ArchitectureHolds, RecommendationsAreLinked,
         RecommendationsHold, EverythingIsChecked, EvidenceBound, AllEvidence;
    RepositoriesIff(report, content, local, o);
    GoalsIff(report, goals, o);
    AssessmentsIff(report, goals);
    ClaimsIff(report);
    RecommendationsIff(report);
    if RepositoriesVerifiable(report, local, o) {
      EveryRepositoryIsLocal(report, local, o);
      EvidenceIff(report, local, o);
    }
  }

  lemma EveryRepositoryIsLocal(report: Report, local: seq<string>, o: Outside)
    requires RepositoriesVerifiable(report, local, o)
    ensures forall i :: 0 <= i < |report.repositories| ==> report.repositories[i].repositoryId in local
  {
  }

  /** No reference of an accepted report goes unchecked, whether of a criterion, a claim or a recommendation. */
  lemma AcceptedEvidenceIsVerified(
      report: Report, goals: Goals, content: Content, local: seq<string>, o: Outside, e: EvidenceRef)
    requires Accepted(report, goals, content, local, o)
    requires || (exists a, c :: a in report.assessments && c in a.criteria && e in c.evidence)
             || (exists c :: c in report.architecture && e in c.evidence)
             || (exists c :: c in report.recommendations && e in c.evidence)
    ensures Checked(e, report, o)
  {
    hide Accepted, Checked, Visible, RepositoriesAreSettled, GoalsAreApproved, GoalsAreAssessed, ClaimsAreLinked,
         RecommendationsAreLinked;
    AcceptedIff(report, goals, content, local, o);
  }
}
