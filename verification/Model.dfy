/** The values recorded in the workspace ledger. */
module Model {
  import opened Text
  import opened Common

  datatype Role = Editor | Viewer

  datatype DeviceIdentity = DeviceIdentity(
    actorId: string, deviceId: string, signingPublicKey: string, deviceLabel: string)
  {
    predicate Valid() {
      !Blank(actorId) && !Blank(deviceId) && !Blank(deviceLabel) && |signingPublicKey| == 64 && AllHex(signingPublicKey)
    }
  }

  datatype DeviceAccess = DeviceAccess(identity: DeviceIdentity, role: Role, grantId: Option<string>)

  datatype Criterion = Criterion(id: string, text: string)

  datatype GoalVersion = GoalVersion(
    id: string, goalId: string, title: string, businessOutcome: string, priority: nat, position: nat,
    criteria: seq<Criterion>)
  {
    predicate Valid() {
      && !Blank(title)
      && !Blank(businessOutcome)
      && 1 <= priority <= 5
      && position <= 10_000
      && criteria != []
      && forall i :: 0 <= i < |criteria| ==> !Blank(criteria[i].text)
    }
  }

  datatype RepositoryRef = RepositoryRef(id: string, displayName: string)

  datatype FrozenRepository = FrozenRepository(repositoryId: string, commitSha: string)

  datatype Verdict = Supported | Partial | Unsupported | Unverified

  datatype EvidenceRef = EvidenceRef(
    repositoryId: string, commitSha: string, blobOid: string, path: string, startLine: nat, endLine: nat,
    contentHash: string)

  datatype CriterionAssessment = CriterionAssessment(criterionId: string, verdict: Verdict, evidence: seq<EvidenceRef>)

  datatype GoalAssessment = GoalAssessment(goalVersionId: string, verdict: Verdict, criteria: seq<CriterionAssessment>)

  datatype ArchitectureClaim = ArchitectureClaim(
    id: string, component: string, summary: string, affectedGoalVersionIds: seq<string>, evidence: seq<EvidenceRef>)

  datatype Recommendation = Recommendation(
    id: string, title: string, goalVersionIds: seq<string>, evidence: seq<EvidenceRef>, rank: nat)

  datatype Report = Report(
    id: string, completedAt: int, repositories: seq<FrozenRepository>, goalVersionIds: seq<string>,
    goalSetHash: string, provider: string, providerVersion: string, assessments: seq<GoalAssessment>,
    architecture: seq<ArchitectureClaim>, recommendations: seq<Recommendation>, coverage: Option<real>,
    unverifiedCriteria: nat)

  datatype MapDescriptor = MapDescriptor(mapId: string, contentHash: string, repositories: seq<FrozenRepository>)

  datatype ActionStatus =
    Open | Planned | InProgress | ReadyForVerification | Verified | Reopened | Deferred | Dismissed
  {
    predicate MayTransitionTo(next: ActionStatus) {
      match this
      case Open => next in {Planned, Deferred, Dismissed}
      case Planned => next in {InProgress, Deferred, Dismissed}
      case InProgress => next in {ReadyForVerification, Deferred}
      case ReadyForVerification => next in {Verified, Reopened}
      case Verified => next == Reopened
      case Reopened => next in {Planned, InProgress, Deferred, Dismissed}
      case Deferred => next in {Open, Planned, Dismissed}
      case Dismissed => next == Reopened
    }
  }
}
