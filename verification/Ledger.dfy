/**
 The workspace projection: what one signed event does to the state replayed from the ledger.

 `Apply` is the specification; class `WorkspaceProjection` is the projection object, updated in place.
 */
module Ledger {
  import opened Text
  import opened Common
  import opened Model

  /** Completions are counted in 32 bits and the counter saturates. */
  const MAX_COMPLETIONS: nat := 0xffff_ffff

  const HISTORY_PREFIX := "\0history:"

  datatype Event =
    | WorkspaceCreated(name: string, foundingDevice: DeviceIdentity, workspaceFingerprint: string)
    | RepositoryRegistered(repository: RepositoryRef)
    | GoalVersionProposed(version: GoalVersion)
    | GoalVersionApproved(goalId: string, versionId: string)
    | GoalSetReplaced(versions: seq<GoalVersion>)
    | ReportCompleted(report: Report)
    | ReportDeleted(reportEventId: string)
      // Funnel, product, reliability and survey records project nothing; some carry a record to validate.
    | ObservationRecorded(recordValid: bool)
    | CodebaseMapRecorded(descriptor: MapDescriptor)
    | ActionCreated(actionId: string, recommendationId: string, title: string)
    | ActionTransitioned(transitionedId: string, before: ActionStatus, after: ActionStatus, note: Option<string>)

  /** `signatureValid` is the outcome of verifying the envelope's signature. */
  datatype Envelope = Envelope(
    eventId: string, workspaceId: string, lamport: nat, deviceId: string, actorId: string, epoch: nat,
    signingPublicKey: string, signatureValid: bool, event: Event)

  datatype Action = Action(id: string, recommendationId: string, title: string, status: ActionStatus,
                           lastNote: Option<string>)

  datatype Workspace = Workspace(
    id: string, fingerprint: string, name: string, epoch: nat, devices: map<string, DeviceAccess>)

  datatype Goals = Goals(versions: map<string, GoalVersion>, approved: map<string, string>)

  /** Reports by storage key, the completion event behind each key, and the numbering of completions. */
  datatype History = History(
    reports: map<string, Report>,
    eventIds: map<string, string>,
    ordinals: map<string, nat>,
    completionCount: nat,
    deleted: set<string>)

  datatype Content = Content(
    repositories: map<string, RepositoryRef>, maps: map<string, MapDescriptor>, actions: map<string, Action>)

  datatype State = State(workspace: Workspace, goals: Goals, history: History, content: Content, applied: set<string>)

  const EMPTY := State(
    Workspace("", "", "", 0, map[]), Goals(map[], map[]), History(map[], map[], map[], 0, {}),
    Content(map[], map[], map[]), {})

  datatype Error =
    | InvalidSignature | WrongWorkspace | WorkspaceMissing | Forbidden | Missing(id: string)
    | InvalidTransition | StaleEpoch | InvalidValue

  datatype Result<+T> = Ok(value: T) | Err(error: Error)

  // Creation and authorization.

  predicate FoundingAllowed(w: Workspace, e: Envelope)
    requires e.event.WorkspaceCreated?
  {
    var device := e.event.foundingDevice;
    && w.id == ""
    && device.actorId == e.actorId
    && device.deviceId == e.deviceId
    && device.signingPublicKey == e.signingPublicKey
    && device.Valid()
    && !Blank(e.event.workspaceFingerprint)
  }

  function Founded(w: Workspace, e: Envelope): Workspace
    requires e.event.WorkspaceCreated?
  {
    var device := e.event.foundingDevice;
    Workspace(e.workspaceId, e.event.workspaceFingerprint, e.event.name, e.epoch,
              w.devices[device.deviceId := DeviceAccess(device, Editor, None)])
  }

  predicate Authorized(w: Workspace, e: Envelope) {
    && e.deviceId in w.devices
    && w.devices[e.deviceId].role == Editor
    && w.devices[e.deviceId].identity.actorId == e.actorId
    && w.devices[e.deviceId].identity.signingPublicKey == e.signingPublicKey
  }

  // Goal sets.

  /** What the replacement loop tests at one version; contiguity of positions is not among it. */
  predicate AcceptableAt(versions: seq<GoalVersion>, i: nat)
    requires i < |versions|
  {
    && versions[i].Valid()
    && 1 <= versions[i].position <= |versions|
    && forall j :: 0 <= j < i ==>
         && versions[j].goalId != versions[i].goalId
         && versions[j].id != versions[i].id
         && versions[j].position != versions[i].position
  }

  predicate AcceptableGoalSet(versions: seq<GoalVersion>) {
    versions != [] && forall i :: 0 <= i < |versions| ==> AcceptableAt(versions, i)
  }

  function VersionsById(versions: seq<GoalVersion>): map<string, GoalVersion> {
    if versions == [] then map[]
    else
      var last := versions[|versions| - 1];
      VersionsById(versions[..|versions| - 1])[last.id := last]
  }

  function ApprovalsOf(versions: seq<GoalVersion>): map<string, string> {
    if versions == [] then map[]
    else
      var last := versions[|versions| - 1];
      ApprovalsOf(versions[..|versions| - 1])[last.goalId := last.id]
  }

  // Report history.

  /** The first of candidate, candidate\0, candidate\0\0, ... that is not taken. */
  function HistoryKey(taken: set<string>, candidate: string): (key: string)
    ensures candidate <= key
    ensures key !in taken
    decreases taken
  {
    if candidate in taken then
      var key := HistoryKey(taken - {candidate}, candidate + "\0");
      assert |candidate + "\0"| <= |key|;
      key
    else candidate
  }

  function Demoted(h: History, eventId: string, id: string): string {
    HistoryKey(h.reports.Keys - {id}, HISTORY_PREFIX + eventId)
  }

  /** Moves the report stored under `id`, if any, to a history key. */
  function Displaced(h: History, eventId: string, id: string): History {
    if id in h.reports then
      var key := Demoted(h, eventId, id);
      h.(reports := (h.reports - {id})[key := h.reports[id]],
         eventIds := if id in h.eventIds then (h.eventIds - {id})[key := h.eventIds[id]] else h.eventIds)
    else h
  }

  function NextOrdinal(h: History): nat {
    if h.completionCount < MAX_COMPLETIONS then h.completionCount + 1 else h.completionCount
  }

  function WithReport(h: History, eventId: string, report: Report): History {
    var d := Displaced(h, eventId, report.id);
    History(d.reports[report.id := report], d.eventIds[report.id := eventId],
            h.ordinals[eventId := NextOrdinal(h)], NextOrdinal(h), h.deleted)
  }

  predicate ApprovedSetMatches(goals: Goals, report: Report) {
    goals.approved.Values == set id | id in report.goalVersionIds
  }

  function OrdinalOf(h: History, key: string): nat
    requires key in h.eventIds
  {
    if h.eventIds[key] in h.ordinals then h.ordinals[h.eventIds[key]] else 0
  }

  /** Keys that take part in the search for the latest report. */
  predicate Listed(h: History, key: string) {
    key in h.eventIds && key in h.reports
  }

  /** Later completion time, then larger ordinal, then the later key: the order of the maximum search. */
  predicate Newer(h: History, a: string, b: string)
    requires Listed(h, a) && Listed(h, b)
  {
    var left, right := OrdinalOf(h, a), OrdinalOf(h, b);
    || h.reports[a].completedAt > h.reports[b].completedAt
    || (h.reports[a].completedAt == h.reports[b].completedAt && (left > right || (left == right && Below(b, a))))
  }

  ghost predicate IsLatest(h: History, key: string) {
    Listed(h, key) && forall other :: Listed(h, other) && other != key ==> Newer(h, key, other)
  }

  ghost predicate LatestIs(h: History, eventId: string) {
    exists key :: IsLatest(h, key) && h.eventIds[key] == eventId
  }

  /** The first key, in key order, that stores the given event. */
  ghost predicate IsFirstKey(m: map<string, string>, value: string, key: string) {
    key in m && m[key] == value && forall other :: other in m && m[other] == value && other != key ==> Below(key, other)
  }

  lemma {:induction false} FirstKeyExists(m: map<string, string>, value: string) returns (key: string)
    requires value in m.Values
    ensures IsFirstKey(m, value, key)
    decreases |m|
  {
    var some :| some in m && m[some] == value;
    var rest := m - {some};
    if value in rest.Values {
      var best := FirstKeyExists(rest, value);
      BelowTotal(some, best);
      key := if Below(some, best) then some else best;
      forall other | other in m && m[other] == value && other != key ensures Below(key, other) {
        if other != some && other != best {
          assert other in rest;
          if key == some { BelowTransitive(some, best, other); }
        }
      }
    } else {
      key := some;
      assert forall other :: other in rest ==> rest[other] in rest.Values;
      assert forall other :: other in m && other != some ==> other in rest && rest[other] == m[other];
    }
  }

  lemma SomeKeyIsFirst(m: map<string, string>, value: string)
    requires value in m.Values
    ensures exists key :: IsFirstKey(m, value, key)
  {
    var key := FirstKeyExists(m, value);
  }

  ghost function FirstKey(m: map<string, string>, value: string): (key: string)
    requires value in m.Values
    ensures IsFirstKey(m, value, key)
  {
    SomeKeyIsFirst(m, value);
    var key :| IsFirstKey(m, value, key);
    key
  }

  lemma FirstKeyUnique(m: map<string, string>, value: string, a: string, b: string)
    requires IsFirstKey(m, value, a) && IsFirstKey(m, value, b)
    ensures a == b
  {
    if a != b {
      BelowTransitive(a, b, a);
      BelowIrreflexive(a);
    }
  }

  ghost function Deleted(h: History, eventId: string): Result<History> {
    if eventId !in h.eventIds.Values then
      if eventId in h.deleted then Err(InvalidValue) else Err(Missing(eventId))
    else if LatestIs(h, eventId) then Err(InvalidValue)
    else
      var key := FirstKey(h.eventIds, eventId);
      Ok(h.(reports := h.reports - {key}, eventIds := h.eventIds - {key}, deleted := h.deleted + {eventId}))
  }

  // Actions.

  predicate NoteMissing(note: Option<string>) {
    note.None? || Blank(note.value)
  }

  function Transitioned(
    actions: map<string, Action>, id: string, before: ActionStatus, after: ActionStatus, note: Option<string>)
    : Result<map<string, Action>>
  {
    if id !in actions then Err(Missing(id))
    else if actions[id].status != before || !before.MayTransitionTo(after) then Err(InvalidTransition)
    else if after == ReadyForVerification && NoteMissing(note) then Err(InvalidValue)
    else Ok(actions[id := actions[id].(status := after, lastNote := note)])
  }

  // One event.

  function GoalsAfter(goals: Goals, event: Event): Result<Goals>
    requires event.GoalVersionProposed? || event.GoalVersionApproved? || event.GoalSetReplaced?
  {
    match event
    case GoalVersionProposed(version) =>
      if version.Valid() then Ok(goals.(versions := goals.versions[version.id := version])) else Err(InvalidValue)
    case GoalVersionApproved(goalId, versionId) =>
      if versionId !in goals.versions then Err(Missing(versionId))
      else if goals.versions[versionId].goalId != goalId then Err(InvalidValue)
      else Ok(goals.(approved := goals.approved[goalId := versionId]))
    case GoalSetReplaced(versions) =>
      if AcceptableGoalSet(versions) then Ok(Goals(goals.versions + VersionsById(versions), ApprovalsOf(versions)))
      else Err(InvalidValue)
  }

  ghost function HistoryAfter(h: History, goals: Goals, eventId: string, event: Event): Result<History>
    requires event.ReportCompleted? || event.ReportDeleted?
  {
    match event
    case ReportCompleted(report) =>
      if ApprovedSetMatches(goals, report) then Ok(WithReport(h, eventId, report)) else Err(InvalidValue)
    case ReportDeleted(reportEventId) => Deleted(h, reportEventId)
  }

  function ContentAfter(c: Content, event: Event): Result<Content>
    requires event.RepositoryRegistered? || event.ObservationRecorded? || event.CodebaseMapRecorded?
             || event.ActionCreated? || event.ActionTransitioned?
  {
    match event
    case RepositoryRegistered(repository) =>
      Ok(c.(repositories := c.repositories[repository.id := repository]))
    case ObservationRecorded(recordValid) => if recordValid then Ok(c) else Err(InvalidValue)
    case CodebaseMapRecorded(descriptor) =>
      if Blank(descriptor.mapId) || Utf8Length(descriptor.contentHash) != 64 || descriptor.repositories == []
      then Err(InvalidValue)
      else Ok(c.(maps := c.maps[descriptor.mapId := descriptor]))
    case ActionCreated(id, recommendationId, title) =>
      Ok(c.(actions := c.actions[id := Action(id, recommendationId, title, Open, None)]))
    case ActionTransitioned(id, before, after, note) =>
      match Transitioned(c.actions, id, before, after, note)
      case Err(error) => Err(error)
      case Ok(actions) => Ok(c.(actions := actions))
  }

  /** The content of an event from an authorized device at the current epoch. */
  ghost function Project(s: State, e: Envelope): Result<State>
    requires !e.event.WorkspaceCreated?
  {
    match e.event
    case GoalVersionProposed(_) | GoalVersionApproved(_, _) | GoalSetReplaced(_) =>
      (match GoalsAfter(s.goals, e.event)
       case Err(error) => Err(error)
       case Ok(goals) => Ok(s.(goals := goals)))
    case ReportCompleted(_) | ReportDeleted(_) =>
      (match HistoryAfter(s.history, s.goals, e.eventId, e.event)
       case Err(error) => Err(error)
       case Ok(history) => Ok(s.(history := history)))
    case RepositoryRegistered(_) | ObservationRecorded(_) | CodebaseMapRecorded(_) | ActionCreated(_, _, _)
       | ActionTransitioned(_, _, _, _) =>
      match ContentAfter(s.content, e.event)
      case Err(error) => Err(error)
      case Ok(content) => Ok(s.(content := content))
  }

  ghost function Apply(s: State, e: Envelope): Result<State> {
    if e.eventId in s.applied then Ok(s)
    else if !e.signatureValid then Err(InvalidSignature)
    else if s.workspace.id != "" && s.workspace.id != e.workspaceId then Err(WrongWorkspace)
    else if e.event.WorkspaceCreated? then
      if FoundingAllowed(s.workspace, e)
      then Ok(s.(workspace := Founded(s.workspace, e), applied := s.applied + {e.eventId}))
      else Err(Forbidden)
    else if s.workspace.id == "" then Err(WorkspaceMissing)
    else if e.epoch != s.workspace.epoch then Err(StaleEpoch)
    else if !Authorized(s.workspace, e) then Err(Forbidden)
    else
      match Project(s, e)
      case Err(error) => Err(error)
      case Ok(t) => Ok(t.(applied := t.applied + {e.eventId}))
  }
}
