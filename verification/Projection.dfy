/** The projection object: the state of one workspace, updated in place by each envelope. */
module Projection {
  import opened Text
  import opened Common
  import opened Model
  import opened Ledger

  class WorkspaceProjection {
    var workspace: Workspace
    var goals: Goals
    var history: History
    var content: Content
    var applied: set<string>

    ghost function View(): State
      reads this
    {
      State(workspace, goals, history, content, applied)
    }

    constructor ()
      ensures View() == EMPTY
    {
      workspace := Workspace("", "", "", 0, map[]);
      goals := Goals(map[], map[]);
      history := History(map[], map[], map[], 0, {});
      content := Content(map[], map[], map[]);
      applied := {};
    }

    /** Applies one envelope. A failing envelope leaves every field as it was. */
    method ApplyEnvelope(e: Envelope) returns (r: Result<()>)
      modifies this
      ensures r.Ok? <==> Apply(old(View()), e).Ok?
      ensures r.Ok? ==> View() == Apply(old(View()), e).value
      ensures r.Err? ==> r.error == Apply(old(View()), e).error && View() == old(View())
    {
      hide Project, Blank, AllHex;
      if e.eventId in applied { return Ok(()); }
      if !e.signatureValid { return Err(InvalidSignature); }
      if workspace.id != "" && workspace.id != e.workspaceId { return Err(WrongWorkspace); }
      if e.event.WorkspaceCreated? {
        var device := e.event.foundingDevice;
        if workspace.id != "" || device.actorId != e.actorId || device.deviceId != e.deviceId
           || device.signingPublicKey != e.signingPublicKey || !device.Valid()
           || Blank(e.event.workspaceFingerprint) {
          return Err(Forbidden);
        }
        workspace := Workspace(e.workspaceId, e.event.workspaceFingerprint, e.event.name, e.epoch,
                               workspace.devices[device.deviceId := DeviceAccess(device, Editor, None)]);
        applied := applied + {e.eventId};
        return Ok(());
      }
      if workspace.id == "" { return Err(WorkspaceMissing); }
      if e.epoch != workspace.epoch { return Err(StaleEpoch); }
      if e.deviceId !in workspace.devices { return Err(Forbidden); }
      var access := workspace.devices[e.deviceId];
      if access.role != Editor || access.identity.actorId != e.actorId
         || access.identity.signingPublicKey != e.signingPublicKey {
        return Err(Forbidden);
      }
      r := ApplyContent(e);
      if r.Ok? { applied := applied + {e.eventId}; }
    }

    method ApplyContent(e: Envelope) returns (r: Result<()>)
      requires !e.event.WorkspaceCreated?
      modifies this
      ensures r.Ok? <==> Project(old(View()), e).Ok?
      ensures r.Ok? ==> View() == Project(old(View()), e).value
      ensures r.Err? ==> r.error == Project(old(View()), e).error && View() == old(View())
    {
      hide WithReport, Deleted, AcceptableGoalSet, VersionsById, ApprovalsOf, Blank, ApprovedSetMatches;
      match e.event {
        case RepositoryRegistered(repository) =>
          content := content.(repositories := content.repositories[repository.id := repository]);
        case GoalVersionProposed(version) =>
          if !version.Valid() { return Err(InvalidValue); }
          goals := goals.(versions := goals.versions[version.id := version]);
        case GoalVersionApproved(goalId, versionId) =>
          if versionId !in goals.versions { return Err(Missing(versionId)); }
          if goals.versions[versionId].goalId != goalId { return Err(InvalidValue); }
          goals := goals.(approved := goals.approved[goalId := versionId]);
        case GoalSetReplaced(versions) =>
          r := ReplaceGoalSet(versions);
          return;
        case ReportCompleted(report) =>
          r := CompleteReport(e.eventId, report);
          return;
        case ReportDeleted(reportEventId) =>
          r := DeleteReport(reportEventId);
          return;
        case ObservationRecorded(recordValid) =>
          if !recordValid { return Err(InvalidValue); }
        case CodebaseMapRecorded(descriptor) =>
          if Blank(descriptor.mapId) || Utf8Length(descriptor.contentHash) != 64 || descriptor.repositories == [] {
            return Err(InvalidValue);
          }
          content := content.(maps := content.maps[descriptor.mapId := descriptor]);
        case ActionCreated(id, recommendationId, title) =>
          content := content.(actions := content.actions[id := Action(id, recommendationId, title, Open, None)]);
        case ActionTransitioned(id, before, after, note) =>
          if id !in content.actions { return Err(Missing(id)); }
          var action := content.actions[id];
          if action.status != before || !before.MayTransitionTo(after) { return Err(InvalidTransition); }
          if after == ReadyForVerification && NoteMissing(note) { return Err(InvalidValue); }
          content := content.(actions := content.actions[id := action.(status := after, lastNote := note)]);
      }
      r := Ok(());
    }

    method ReplaceGoalSet(versions: seq<GoalVersion>) returns (r: Result<()>)
      modifies this`goals
      ensures r.Ok? <==> AcceptableGoalSet(versions)
      ensures r.Ok? ==> goals == Goals(old(goals).versions + VersionsById(versions), ApprovalsOf(versions))
      ensures r.Err? ==> r.error == InvalidValue && goals == old(goals)
    {
      var acceptable := CheckGoalSet(versions);
      if !acceptable { return Err(InvalidValue); }
      hide AcceptableGoalSet;
      var i := 0;
      var approvals: map<string, string> := map[];
      while i < |versions|
        invariant 0 <= i <= |versions|
        invariant goals == old(goals).(versions := old(goals).versions + VersionsById(versions[..i]))
        invariant approvals == ApprovalsOf(versions[..i])
      {
        assert versions[..i + 1][..i] == versions[..i];
        goals := goals.(versions := goals.versions[versions[i].id := versions[i]]);
        approvals := approvals[versions[i].goalId := versions[i].id];
        i := i + 1;
      }
      assert versions[..i] == versions;
      goals := goals.(approved := approvals);
      r := Ok(());
    }

    method CompleteReport(eventId: string, report: Report) returns (r: Result<()>)
      modifies this`history
      ensures r.Ok? <==> ApprovedSetMatches(goals, report)
      ensures r.Ok? ==> history == WithReport(old(history), eventId, report)
      ensures r.Err? ==> r.error == InvalidValue && history == old(history)
    {
      hide HistoryKey;
      if goals.approved.Values != set id | id in report.goalVersionIds { return Err(InvalidValue); }
      if report.id in history.reports {
        var previous := history.reports[report.id];
        var reports := history.reports - {report.id};
        assert reports.Keys == history.reports.Keys - {report.id};
        var key := FreeHistoryKey(reports.Keys, HISTORY_PREFIX + eventId);
        if report.id in history.eventIds {
          var previousEventId := history.eventIds[report.id];
          history := history.(eventIds := (history.eventIds - {report.id})[key := previousEventId]);
        }
        history := history.(reports := reports[key := previous]);
      }
      assert history == Displaced(old(history), eventId, report.id);
      history := history.(reports := history.reports[report.id := report]);
      if history.completionCount < MAX_COMPLETIONS {
        history := history.(completionCount := history.completionCount + 1);
      }
      history := history.(ordinals := history.ordinals[eventId := history.completionCount],
                          eventIds := history.eventIds[report.id := eventId]);
      r := Ok(());
    }

    method DeleteReport(eventId: string) returns (r: Result<()>)
      modifies this`history
      ensures r.Ok? <==> Deleted(old(history), eventId).Ok?
      ensures r.Ok? ==> history == Deleted(old(history), eventId).value
      ensures r.Err? ==> r.error == Deleted(old(history), eventId).error && history == old(history)
    {
      if eventId !in history.eventIds.Values {
        return Err(if eventId in history.deleted then InvalidValue else Missing(eventId));
      }
      hide IsFirstKey, IsLatest, LatestIs;
      var key := FindFirstKey(history.eventIds, eventId);
      FirstKeyUnique(history.eventIds, eventId, key, FirstKey(history.eventIds, eventId));
      var latest := FindLatest(history);
      LatestUnique(history, eventId, latest);
      if latest.Some? && history.eventIds[latest.value] == eventId { return Err(InvalidValue); }
      history := history.(reports := history.reports - {key}, eventIds := history.eventIds - {key},
                          deleted := history.deleted + {eventId});
      r := Ok(());
    }
  }

  /** The maximum search over the stored reports. */
  method FindLatest(h: History) returns (latest: Option<string>)
    ensures latest.None? ==> forall key :: !Listed(h, key)
    ensures latest.Some? ==> Listed(h, latest.value) && IsLatest(h, latest.value)
  {
    var todo := set key | key in h.eventIds && key in h.reports;
    ghost var done: set<string> := {};
    latest := None;
    while todo != {}
      invariant forall key :: Listed(h, key) <==> key in todo || key in done
      invariant latest.None? <==> done == {}
      invariant latest.Some? ==> latest.value in done
      invariant latest.Some? ==> forall key :: key in done && key != latest.value ==> Newer(h, latest.value, key)
      decreases todo
    {
      hide Newer;
      var key :| key in todo;
      if latest.None? {
        latest := Some(key);
      } else {
        NewerTotal(h, key, latest.value);
        if Newer(h, key, latest.value) {
          forall other | other in done && other != latest.value ensures Newer(h, key, other) {
            NewerTransitive(h, key, latest.value, other);
          }
          latest := Some(key);
        }
      }
      todo, done := todo - {key}, done + {key};
    }
  }

  /** The loop over a replacement goal set, with its three sets of values already seen. */
  method CheckGoalSet(versions: seq<GoalVersion>) returns (ok: bool)
    ensures ok <==> AcceptableGoalSet(versions)
  {
    if versions == [] { return false; }
    var goalIds: set<string>, versionIds: set<string>, positions: set<nat> := {}, {}, {};
    for i := 0 to |versions|
      invariant goalIds == set j | 0 <= j < i :: versions[j].goalId
      invariant versionIds == set j | 0 <= j < i :: versions[j].id
      invariant positions == set j | 0 <= j < i :: versions[j].position
      invariant forall j :: 0 <= j < i ==> AcceptableAt(versions, j)
    {
      assert AcceptableAt(versions, i)
        <==> versions[i].Valid() && 1 <= versions[i].position <= |versions| && versions[i].goalId !in goalIds
             && versions[i].id !in versionIds && versions[i].position !in positions;
      var version := versions[i];
      if !version.Valid() || version.goalId in goalIds || version.id in versionIds || version.position == 0
         || version.position > |versions| || version.position in positions {
        return false;
      }
      goalIds, versionIds, positions :=
        goalIds + {version.goalId}, versionIds + {version.id}, positions + {version.position};
    }
    ok := true;
  }

  /** The history-key search. It ends because every turn passes one more stored key. */
  method FreeHistoryKey(taken: set<string>, base: string) returns (key: string)
    ensures key == HistoryKey(taken, base)
  {
    key := base;
    ghost var left := taken;
    while key in taken
      invariant left <= taken
      invariant forall k :: k in taken && |k| >= |key| ==> k in left
      invariant HistoryKey(taken, base) == HistoryKey(left, key)
      decreases left
    {
      left := left - {key};
      key := key + "\0";
    }
  }

  method FindFirstKey(m: map<string, string>, value: string) returns (key: string)
    requires value in m.Values
    ensures IsFirstKey(m, value, key)
  {
    var todo := set k | k in m && m[k] == value;
    key :| key in m && m[key] == value;
    todo := todo - {key};
    while todo != {}
      invariant key in m && m[key] == value
      invariant forall k :: k in todo ==> k in m && m[k] == value
      invariant forall k :: k in m && m[k] == value && k != key && k !in todo ==> Below(key, k)
      decreases todo
    {
      var other :| other in todo;
      BelowTotal(other, key);
      if Below(other, key) {
        forall k | k in m && m[k] == value && k != other && k !in todo ensures Below(other, k) {
          if k != key { BelowTransitive(other, key, k); }
        }
        key := other;
      }
      todo := todo - {other};
    }
  }

  lemma NewerTotal(h: History, a: string, b: string)
    requires Listed(h, a) && Listed(h, b)
    ensures a == b || Newer(h, a, b) || Newer(h, b, a)
  {
    BelowTotal(a, b);
  }

  lemma NewerTransitive(h: History, a: string, b: string, c: string)
    requires Listed(h, a) && Listed(h, b) && Listed(h, c)
    requires Newer(h, a, b) && Newer(h, b, c)
    ensures Newer(h, a, c)
  {
    if Below(c, b) && Below(b, a) { BelowTransitive(c, b, a); }
  }

  lemma NewerIrreflexive(h: History, a: string)
    requires Listed(h, a)
    ensures !Newer(h, a, a)
  {
    BelowIrreflexive(a);
  }

  /** At most one key is the latest, so comparing with the search result decides `LatestIs`. */
  lemma LatestUnique(h: History, eventId: string, latest: Option<string>)
    requires latest.None? ==> forall key :: !Listed(h, key)
    requires latest.Some? ==> Listed(h, latest.value) && IsLatest(h, latest.value)
    ensures LatestIs(h, eventId) <==> latest.Some? && h.eventIds[latest.value] == eventId
  {
    if LatestIs(h, eventId) {
      var key :| IsLatest(h, key) && h.eventIds[key] == eventId;
      if latest.Some? && key != latest.value {
        NewerTransitive(h, key, latest.value, key);
        NewerIrreflexive(h, key);
      }
    }
  }
}
