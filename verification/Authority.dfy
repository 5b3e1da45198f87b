/**
 Which events a workspace accepts and what each of them does to it, said field by field: over every run,
 only signed events of a founding device at the current epoch take effect.
 */
module Authority {
  import opened Text
  import opened Common
  import opened Model
  import opened Ledger
  import opened ReportHistory

  // Who may write.

  predicate SameDevice(e: Envelope, f: Envelope) {
    e.deviceId == f.deviceId && e.actorId == f.actorId && e.signingPublicKey == f.signingPublicKey
  }

  /** A founding event of the run that took effect. */
  ghost predicate Founder(run: seq<Envelope>, applied: set<string>, f: Envelope) {
    f in run && f.event.WorkspaceCreated? && f.signatureValid && f.eventId in applied
  }

  /** A device of the workspace is the device of a founder. */
  ghost predicate Rooted(run: seq<Envelope>, applied: set<string>, device: string, access: DeviceAccess) {
    exists f :: Founder(run, applied, f) && f.deviceId == device
                && access.identity.actorId == f.actorId && access.identity.signingPublicKey == f.signingPublicKey
  }

  /** The event behind an applied id: signed, by a founder's device, for this workspace at its epoch. */
  ghost predicate Warranted(run: seq<Envelope>, s: State, id: string) {
    exists e, f :: WarrantedBy(run, s, id, e, f)
  }

  ghost predicate WarrantedBy(run: seq<Envelope>, s: State, id: string, e: Envelope, f: Envelope) {
    && e in run && e.eventId == id && e.signatureValid
    && Founder(run, s.applied, f) && SameDevice(e, f)
    && (!e.event.WorkspaceCreated? ==>
          s.workspace.id != "" && e.workspaceId == s.workspace.id && e.epoch == s.workspace.epoch)
  }

  ghost predicate AllWarranted(run: seq<Envelope>, s: State) {
    && (forall id :: id in s.applied ==> Warranted(run, s, id))
    && forall d :: d in s.workspace.devices ==> Rooted(run, s.applied, d, s.workspace.devices[d])
  }

  /** What a step that changes anything needs. */
  lemma StepIsSigned(s: State, e: Envelope)
    requires Apply(s, e).Ok? && e.eventId !in s.applied
    ensures e.signatureValid
    ensures Apply(s, e).value.applied == s.applied + {e.eventId}
    ensures !e.event.WorkspaceCreated? ==>
              && Apply(s, e).value.workspace == s.workspace
              && s.workspace.id != "" && e.workspaceId == s.workspace.id && e.epoch == s.workspace.epoch
              && e.deviceId in s.workspace.devices
              && s.workspace.devices[e.deviceId].identity.actorId == e.actorId
              && s.workspace.devices[e.deviceId].identity.signingPublicKey == e.signingPublicKey
    ensures e.event.WorkspaceCreated? ==>
              && s.workspace.id == ""
              && Apply(s, e).value.workspace.devices.Keys == s.workspace.devices.Keys + {e.deviceId}
              && (forall d :: d in s.workspace.devices && d != e.deviceId ==>
                    Apply(s, e).value.workspace.devices[d] == s.workspace.devices[d])
              && Apply(s, e).value.workspace.devices[e.deviceId].identity.actorId == e.actorId
              && Apply(s, e).value.workspace.devices[e.deviceId].identity.signingPublicKey == e.signingPublicKey
  {
    hide GoalsAfter, HistoryAfter, ContentAfter;
  }

  lemma FounderStays(run: seq<Envelope>, e: Envelope, applied: set<string>, more: set<string>, f: Envelope)
    requires Founder(run, applied, f) && applied <= more
    ensures Founder(run + [e], more, f)
  {
  }

  lemma OldIsWarranted(run: seq<Envelope>, s: State, e: Envelope, t: State, id: string)
    requires Warranted(run, s, id) && s.applied <= t.applied
    requires s.workspace.id != "" ==> t.workspace == s.workspace
    ensures Warranted(run + [e], t, id)
  {
    hide SameDevice;
    var e0, f0 :| WarrantedBy(run, s, id, e0, f0);
    FounderStays(run, e, s.applied, t.applied, f0);
    assert WarrantedBy(run + [e], t, id, e0, f0);
  }

  lemma RootedStays(
      run: seq<Envelope>, e: Envelope, applied: set<string>, more: set<string>, device: string, access: DeviceAccess)
    requires Rooted(run, applied, device, access) && applied <= more
    ensures Rooted(run + [e], more, device, access)
  {
    var f :| Founder(run, applied, f) && f.deviceId == device
             && access.identity.actorId == f.actorId && access.identity.signingPublicKey == f.signingPublicKey;
    FounderStays(run, e, applied, more, f);
  }

  lemma NewIsWarranted(run: seq<Envelope>, s: State, e: Envelope)
    requires AllWarranted(run, s) && Apply(s, e).Ok? && e.eventId !in s.applied
    ensures Warranted(run + [e], Apply(s, e).value, e.eventId)
  {
    hide Apply;
    StepIsSigned(s, e);
    var t := Apply(s, e).value;
    if e.event.WorkspaceCreated? {
      assert Founder(run + [e], t.applied, e);
      assert WarrantedBy(run + [e], t, e.eventId, e, e);
    } else {
      var access := s.workspace.devices[e.deviceId];
      assert Rooted(run, s.applied, e.deviceId, access);
      var f :| Founder(run, s.applied, f) && f.deviceId == e.deviceId
               && access.identity.actorId == f.actorId && access.identity.signingPublicKey == f.signingPublicKey;
      FounderStays(run, e, s.applied, t.applied, f);
      assert WarrantedBy(run + [e], t, e.eventId, e, f);
    }
  }

  lemma DevicesStayRooted(run: seq<Envelope>, s: State, e: Envelope)
    requires AllWarranted(run, s) && Apply(s, e).Ok? && e.eventId !in s.applied
    ensures var t := Apply(s, e).value;
            forall d :: d in t.workspace.devices ==> Rooted(run + [e], t.applied, d, t.workspace.devices[d])
  {
    hide Apply, Warranted;
    StepIsSigned(s, e);
    var t := Apply(s, e).value;
    forall d | d in t.workspace.devices ensures Rooted(run + [e], t.applied, d, t.workspace.devices[d]) {
      if e.event.WorkspaceCreated? && d == e.deviceId {
        assert Founder(run + [e], t.applied, e);
      } else {
        RootedStays(run, e, s.applied, t.applied, d, s.workspace.devices[d]);
      }
    }
  }

  lemma StepIsWarranted(run: seq<Envelope>, s: State, e: Envelope)
    requires AllWarranted(run, s)
    ensures AllWarranted(run + [e], match Apply(s, e) case Ok(t) => t case Err(_) => s)
  {
    hide Apply, Warranted, Rooted;
    var t := match Apply(s, e) case Ok(t) => t case Err(_) => s;
    if e.eventId in s.applied {
      AppliedAgainChangesNothing(s, e);
    } else if Apply(s, e).Ok? {
      StepIsSigned(s, e);
      NewIsWarranted(run, s, e);
      DevicesStayRooted(run, s, e);
    }
    forall id | id in t.applied ensures Warranted(run + [e], t, id) {
      if id in s.applied { OldIsWarranted(run, s, e, t, id); }
    }
    if t == s {
      hide AllWarranted;
      DevicesAreRooted(run, s);
      forall d | d in t.workspace.devices ensures Rooted(run + [e], t.applied, d, t.workspace.devices[d]) {
        RootedStays(run, e, s.applied, t.applied, d, s.workspace.devices[d]);
      }
    }
  }

  lemma DevicesAreRooted(run: seq<Envelope>, s: State)
    requires AllWarranted(run, s)
    ensures forall d :: d in s.workspace.devices ==> Rooted(run, s.applied, d, s.workspace.devices[d])
  {
  }

  lemma AppliedAgainChangesNothing(s: State, e: Envelope)
    requires e.eventId in s.applied
    ensures Apply(s, e) == Ok(s)
  {
  }

  lemma NothingToWarrant()
    ensures AllWarranted([], EMPTY)
  {
  }

  /**
   In every run, every event that took effect is signed, comes from the device, actor and key of a signed
   founding event, and, unless it is one itself, is for this workspace at its epoch.
   */
  lemma {:induction false} OnlyWarrantedEventsApply(run: seq<Envelope>)
    ensures AllWarranted(run, RunState(run))
  {
    hide Apply, AllWarranted;
    if run == [] {
      NothingToWarrant();
    } else {
      var init, e := run[..|run| - 1], run[|run| - 1];
      assert run == init + [e];
      OnlyWarrantedEventsApply(init);
      StepIsWarranted(init, RunState(init), e);
    }
  }

  // Which events apply.

  /** The report is later than every other active one: by time, then ordinal, then key. */
  ghost predicate LatestKey(h: History, key: string) {
    && key in h.eventIds && key in h.reports
    && forall other :: other in h.eventIds && other in h.reports && other != key ==>
         || h.reports[other].completedAt < h.reports[key].completedAt
         || (h.reports[other].completedAt == h.reports[key].completedAt
             && (OrdinalOf(h, other) < OrdinalOf(h, key)
                 || (OrdinalOf(h, other) == OrdinalOf(h, key) && Below(other, key))))
  }

  /** What each event asks of the state and of itself. */
  ghost predicate Fitting(s: State, event: Event) {
    match event
    case WorkspaceCreated(_, _, _) => false
    case RepositoryRegistered(_) => true
    case GoalVersionProposed(v) => v.Valid()
    case GoalVersionApproved(g, v) => v in s.goals.versions && s.goals.versions[v].goalId == g
    case GoalSetReplaced(vs) => GoalSetFits(vs)
    case ReportCompleted(r) => forall v :: v in r.goalVersionIds <==> Approves(s.goals, v)
    case ReportDeleted(id) =>
      && (exists key :: key in s.history.eventIds && s.history.eventIds[key] == id)
      && !exists key :: LatestKey(s.history, key) && s.history.eventIds[key] == id
    case ObservationRecorded(ok) => ok
    case CodebaseMapRecorded(d) => !Blank(d.mapId) && Utf8Length(d.contentHash) == 64 && d.repositories != []
    case ActionCreated(_, _, _) => true
    case ActionTransitioned(id, before, after, note) =>
      && id in s.content.actions && s.content.actions[id].status == before
      && before.MayTransitionTo(after)
      && (after == ReadyForVerification ==> note.Some? && !Blank(note.value))
  }

  /** Valid versions at positions within the set, with no goal, version or position twice. */
  ghost predicate GoalSetFits(vs: seq<GoalVersion>) {
    && vs != []
    && (forall i :: 0 <= i < |vs| ==> vs[i].Valid() && 1 <= vs[i].position <= |vs|)
    && forall i, j :: 0 <= i < j < |vs| ==>
         vs[i].goalId != vs[j].goalId && vs[i].id != vs[j].id && vs[i].position != vs[j].position
  }

  lemma AcceptableMeans(vs: seq<GoalVersion>)
    ensures AcceptableGoalSet(vs) <==> GoalSetFits(vs)
  {
    hide Blank;
    if AcceptableGoalSet(vs) {
      forall i | 0 <= i < |vs| ensures vs[i].Valid() && 1 <= vs[i].position <= |vs| {
        assert AcceptableAt(vs, i);
      }
      forall i, j | 0 <= i < j < |vs|
        ensures vs[i].goalId != vs[j].goalId && vs[i].id != vs[j].id && vs[i].position != vs[j].position
      {
        assert AcceptableAt(vs, j);
      }
    }
    if GoalSetFits(vs) {
      forall i | 0 <= i < |vs| ensures AcceptableAt(vs, i) {
      }
    }
  }

  lemma LatestMeans(h: History, id: string)
    ensures LatestIs(h, id) <==> exists key :: LatestKey(h, key) && h.eventIds[key] == id
  {
    forall key ensures IsLatest(h, key) <==> LatestKey(h, key) {
      LatestKeyMeans(h, key);
    }
  }

  lemma LatestKeyMeans(h: History, key: string)
    ensures IsLatest(h, key) <==> LatestKey(h, key)
  {
    if IsLatest(h, key) {
      forall other | other in h.eventIds && other in h.reports && other != key ensures Newer(h, key, other) {
        assert Listed(h, other);
      }
    }
    if LatestKey(h, key) {
      forall other | Listed(h, other) && other != key ensures Newer(h, key, other) {
      }
    }
  }

  ghost predicate Approves(goals: Goals, v: string) {
    exists g :: g in goals.approved && goals.approved[g] == v
  }

  lemma ApprovedSetMeans(goals: Goals, r: Report)
    ensures ApprovedSetMatches(goals, r) <==> forall v :: v in r.goalVersionIds <==> Approves(goals, v)
  {
    var submitted := set id | id in r.goalVersionIds;
    assert forall v :: v in submitted <==> v in r.goalVersionIds;
    assert forall v :: v in goals.approved.Values <==> Approves(goals, v);
  }

  /** Beyond the headers, an event is refused for what it refers to or what it says. */
  lemma ProjectRefuses(s: State, e: Envelope)
    requires !e.event.WorkspaceCreated? && Project(s, e).Err?
    ensures Project(s, e).error.Missing? || Project(s, e).error == InvalidTransition
            || Project(s, e).error == InvalidValue
  {
    hide WithReport, AcceptableGoalSet, Blank, VersionsById, ApprovalsOf, LatestIs;
  }

  lemma ProjectsIff(s: State, e: Envelope)
    requires !e.event.WorkspaceCreated?
    ensures Project(s, e).Ok? <==> Fitting(s, e.event)
  {
    hide Blank, WithReport, LatestIs, LatestKey, AcceptableGoalSet, Utf8Length;
    match e.event {
      case GoalSetReplaced(vs) => AcceptableMeans(vs);
      case ReportDeleted(id) => LatestMeans(s.history, id);
      case ReportCompleted(r) =>
        ApprovedSetMeans(s.goals, r);
      case _ =>
    }
  }

  /** The headers that a non-founding event needs. */
  ghost predicate Welcome(s: State, e: Envelope) {
    && e.signatureValid
    && s.workspace.id != "" && e.workspaceId == s.workspace.id && e.epoch == s.workspace.epoch
    && e.deviceId in s.workspace.devices
    && var access := s.workspace.devices[e.deviceId];
       access.role == Editor && access.identity.actorId == e.actorId
       && access.identity.signingPublicKey == e.signingPublicKey
  }

  /** Exactly which new events apply. */
  lemma AppliesIff(s: State, e: Envelope)
    requires e.eventId !in s.applied
    ensures Apply(s, e).Ok?
            <==> if e.event.WorkspaceCreated? then
                   && e.signatureValid && s.workspace.id == ""
                   && e.event.foundingDevice.actorId == e.actorId && e.event.foundingDevice.deviceId == e.deviceId
                   && e.event.foundingDevice.signingPublicKey == e.signingPublicKey
                   && e.event.foundingDevice.Valid() && !Blank(e.event.workspaceFingerprint)
                 else Welcome(s, e) && Fitting(s, e.event)
  {
    hide Project, Fitting, Blank;
    if !e.event.WorkspaceCreated? {
      ProjectsIff(s, e);
    }
  }

  /** The refusals of the envelope itself, first come first served. */
  lemma RefusalsAreExact(s: State, e: Envelope)
    requires e.eventId !in s.applied
    ensures Apply(s, e) == Err(InvalidSignature) <==> !e.signatureValid
    ensures e.signatureValid ==>
              (Apply(s, e) == Err(WrongWorkspace) <==> s.workspace.id != "" && s.workspace.id != e.workspaceId)
    ensures e.signatureValid && !e.event.WorkspaceCreated? ==>
              (Apply(s, e) == Err(WorkspaceMissing) <==> s.workspace.id == "")
    ensures e.signatureValid && !e.event.WorkspaceCreated? && s.workspace.id == e.workspaceId != "" ==>
              (Apply(s, e) == Err(StaleEpoch) <==> e.epoch != s.workspace.epoch)
    ensures (&& e.signatureValid && !e.event.WorkspaceCreated? && s.workspace.id == e.workspaceId != ""
             && e.epoch == s.workspace.epoch) ==> (Apply(s, e) == Err(Forbidden) <==> !Welcome(s, e))
  {
    hide Project, FoundingAllowed;
    if !e.event.WorkspaceCreated? && Project(s, e).Err? {
      ProjectRefuses(s, e);
    }
  }

  // What events do.

  /** Only the entry under `key` may differ. */
  ghost predicate OnlyAt<V>(before: map<string, V>, after: map<string, V>, key: string, value: V) {
    && after.Keys == before.Keys + {key} && after[key] == value
    && forall k :: k in before && k != key ==> after[k] == before[k]
  }

  /** What each event leaves, field by field; everything not named stays as it was. */
  ghost predicate Effect(s: State, e: Envelope, t: State) {
    match e.event
    case WorkspaceCreated(name, device, fingerprint) =>
      && t.goals == s.goals && t.history == s.history && t.content == s.content
      && t.workspace.id == e.workspaceId && t.workspace.name == name && t.workspace.fingerprint == fingerprint
      && t.workspace.epoch == e.epoch
      && OnlyAt(s.workspace.devices, t.workspace.devices, e.deviceId, DeviceAccess(device, Editor, None))
    case RepositoryRegistered(r) =>
      && t.workspace == s.workspace && t.goals == s.goals && t.history == s.history
      && t.content.maps == s.content.maps && t.content.actions == s.content.actions
      && OnlyAt(s.content.repositories, t.content.repositories, r.id, r)
    case GoalVersionProposed(v) =>
      && t.workspace == s.workspace && t.history == s.history && t.content == s.content
      && t.goals.approved == s.goals.approved && OnlyAt(s.goals.versions, t.goals.versions, v.id, v)
    case GoalVersionApproved(g, v) =>
      && t.workspace == s.workspace && t.history == s.history && t.content == s.content
      && t.goals.versions == s.goals.versions && OnlyAt(s.goals.approved, t.goals.approved, g, v)
    case GoalSetReplaced(vs) =>
      && t.workspace == s.workspace && t.history == s.history && t.content == s.content
      && (forall i :: 0 <= i < |vs| ==> vs[i].id in t.goals.versions && t.goals.versions[vs[i].id] == vs[i])
      && (forall id :: id in s.goals.versions ==> id in t.goals.versions)
      && (forall g :: g in t.goals.approved ==> exists i :: 0 <= i < |vs| && vs[i].goalId == g)
      && forall i :: 0 <= i < |vs| ==>
           vs[i].goalId in t.goals.approved && t.goals.approved[vs[i].goalId] == vs[i].id
    case ReportCompleted(r) =>
      && t.workspace == s.workspace && t.goals == s.goals && t.content == s.content
      && r.id in t.history.reports && t.history.reports[r.id] == r
      && r.id in t.history.eventIds && t.history.eventIds[r.id] == e.eventId && t.history.deleted == s.history.deleted
    case ReportDeleted(id) =>
      && t.workspace == s.workspace && t.goals == s.goals && t.content == s.content
      && t.history.deleted == s.history.deleted + {id} && t.history.ordinals == s.history.ordinals
      && t.history.completionCount == s.history.completionCount
      && exists key :: key in s.history.eventIds && s.history.eventIds[key] == id
                       && t.history.eventIds == s.history.eventIds - {key} && t.history.reports == s.history.reports - {key}
    case ObservationRecorded(_) =>
      t.workspace == s.workspace && t.goals == s.goals && t.history == s.history && t.content == s.content
    case CodebaseMapRecorded(d) =>
      && t.workspace == s.workspace && t.goals == s.goals && t.history == s.history
      && t.content.repositories == s.content.repositories && t.content.actions == s.content.actions
      && OnlyAt(s.content.maps, t.content.maps, d.mapId, d)
    case ActionCreated(id, recommendation, title) =>
      && t.workspace == s.workspace && t.goals == s.goals && t.history == s.history
      && t.content.repositories == s.content.repositories && t.content.maps == s.content.maps
      && OnlyAt(s.content.actions, t.content.actions, id, Action(id, recommendation, title, Open, None))
    case ActionTransitioned(id, before, after, note) =>
      && t.workspace == s.workspace && t.goals == s.goals && t.history == s.history
      && t.content.repositories == s.content.repositories && t.content.maps == s.content.maps
      && id in s.content.actions
      && OnlyAt(s.content.actions, t.content.actions, id, s.content.actions[id].(status := after, lastNote := note))
  }

  lemma GoalEventTakesEffect(s: State, e: Envelope)
    requires e.event.GoalVersionProposed? || e.event.GoalVersionApproved? || e.event.GoalSetReplaced?
    requires Project(s, e).Ok?
    ensures Effect(s, e, Project(s, e).value)
  {
    hide Blank;
    if e.event.GoalSetReplaced? {
      AcceptableMeans(e.event.versions);
      IndexMeans(e.event.versions);
      hide AcceptableGoalSet, VersionsById, ApprovalsOf;
    }
  }

  lemma {:induction false} IndexMeans(vs: seq<GoalVersion>)
    requires forall i, j :: 0 <= i < j < |vs| ==> vs[i].goalId != vs[j].goalId && vs[i].id != vs[j].id
    ensures forall i :: 0 <= i < |vs| ==> vs[i].id in VersionsById(vs) && VersionsById(vs)[vs[i].id] == vs[i]
    ensures forall i :: 0 <= i < |vs| ==>
              vs[i].goalId in ApprovalsOf(vs) && ApprovalsOf(vs)[vs[i].goalId] == vs[i].id
    ensures forall g :: g in ApprovalsOf(vs) ==> exists i :: 0 <= i < |vs| && vs[i].goalId == g
  {
    if vs != [] {
      var init := vs[..|vs| - 1];
      IndexMeans(init);
      assert forall i :: 0 <= i < |init| ==> init[i] == vs[i];
      forall g | g in ApprovalsOf(vs) ensures exists i :: 0 <= i < |vs| && vs[i].goalId == g {
        if g in ApprovalsOf(init) {
          var i :| 0 <= i < |init| && init[i].goalId == g;
          assert vs[i].goalId == g;
        } else {
          assert vs[|vs| - 1].goalId == g;
        }
      }
    }
  }

  lemma ReportEventTakesEffect(s: State, e: Envelope)
    requires e.event.ReportCompleted? || e.event.ReportDeleted?
    requires Project(s, e).Ok?
    ensures Effect(s, e, Project(s, e).value)
  {
    hide Displaced, LatestIs, ApprovedSetMatches;
    if e.event.ReportDeleted? {
      var key := FirstKey(s.history.eventIds, e.event.reportEventId);
      assert key in s.history.eventIds && s.history.eventIds[key] == e.event.reportEventId;
    }
  }

  lemma ContentEventTakesEffect(s: State, e: Envelope)
    requires e.event.RepositoryRegistered? || e.event.ObservationRecorded? || e.event.CodebaseMapRecorded?
             || e.event.ActionCreated? || e.event.ActionTransitioned?
    requires Project(s, e).Ok?
    ensures Effect(s, e, Project(s, e).value)
  {
    hide Blank, Utf8Length;
  }

  lemma ProjectTakesEffect(s: State, e: Envelope)
    requires !e.event.WorkspaceCreated? && Project(s, e).Ok?
    ensures Effect(s, e, Project(s, e).value) && Project(s, e).value.applied == s.applied
  {
    assert Project(s, e).value.applied == s.applied by { ProjectAppliesNothing(s, e); }
    hide Effect, Project;
    if e.event.GoalVersionProposed? || e.event.GoalVersionApproved? || e.event.GoalSetReplaced? {
      GoalEventTakesEffect(s, e);
    } else if e.event.ReportCompleted? || e.event.ReportDeleted? {
      ReportEventTakesEffect(s, e);
    } else {
      ContentEventTakesEffect(s, e);
    }
  }

  lemma ProjectAppliesNothing(s: State, e: Envelope)
    requires !e.event.WorkspaceCreated? && Project(s, e).Ok?
    ensures Project(s, e).value.applied == s.applied
  {
    hide GoalsAfter, HistoryAfter, ContentAfter;
  }

  lemma EffectIgnoresApplied(s: State, e: Envelope, t: State, applied: set<string>)
    requires Effect(s, e, t)
    ensures Effect(s, e, t.(applied := applied))
  {
  }

  /** An event that applies does what it says, and nothing else. */
  lemma EventTakesEffect(s: State, e: Envelope)
    requires Apply(s, e).Ok? && e.eventId !in s.applied
    ensures Effect(s, e, Apply(s, e).value) && Apply(s, e).value.applied == s.applied + {e.eventId}
  {
    if e.event.WorkspaceCreated? {
      hide Project;
    } else {
      hide Effect, Project, FoundingAllowed, Founded, Authorized;
      ProjectTakesEffect(s, e);
      EffectIgnoresApplied(s, e, Project(s, e).value, s.applied + {e.eventId});
    }
  }

  /** The life of an action: these steps and no others. */
  lemma TransitionsAre(a: ActionStatus, b: ActionStatus)
    ensures a.MayTransitionTo(b)
            <==> (a, b) in {
                   (Open, Planned), (Open, Deferred), (Open, Dismissed),
                   (Planned, InProgress), (Planned, Deferred), (Planned, Dismissed),
                   (InProgress, ReadyForVerification), (InProgress, Deferred),
                   (ReadyForVerification, Verified), (ReadyForVerification, Reopened), (Verified, Reopened),
                   (Reopened, Planned), (Reopened, InProgress), (Reopened, Deferred), (Reopened, Dismissed),
                   (Deferred, Open), (Deferred, Planned), (Deferred, Dismissed), (Dismissed, Reopened)}
  {
  }

  /** `n` NUL characters. */
  function Nuls(n: nat): string {
    if n == 0 then "" else "\0" + Nuls(n - 1)
  }

  /** A displaced report goes to the first free key among the event's own history keys. */
  lemma {:induction false} HistoryKeyIsFirst(taken: set<string>, candidate: string) returns (n: nat)
    ensures HistoryKey(taken, candidate) == candidate + Nuls(n) && candidate + Nuls(n) !in taken
    ensures forall m :: 0 <= m < n ==> candidate + Nuls(m) in taken
    decreases taken
  {
    if candidate in taken {
      var rest := HistoryKeyIsFirst(taken - {candidate}, candidate + "\0");
      n := rest + 1;
      forall m: nat ensures candidate + "\0" + Nuls(m) == candidate + Nuls(m + 1) {
        assert candidate + "\0" + Nuls(m) == candidate + ("\0" + Nuls(m));
      }
      forall m | 0 <= m < n ensures candidate + Nuls(m) in taken {
        if m == 0 {
          assert candidate + "" == candidate;
        } else {
          assert candidate + "\0" + Nuls(m - 1) in taken - {candidate};
        }
      }
      NulsMatter(candidate, n);
    } else {
      n := 0;
      assert candidate + "" == candidate;
    }
  }

  lemma NulsMatter(candidate: string, n: nat)
    requires n > 0
    ensures candidate + Nuls(n) != candidate
  {
    assert |Nuls(n)| > 0;
    assert |candidate + Nuls(n)| > |candidate|;
  }

  lemma DisplacedGoesToHistory(h: History, eventId: string, id: string) returns (n: nat)
    ensures Demoted(h, eventId, id) == "\0history:" + eventId + Nuls(n)
  {
    n := HistoryKeyIsFirst(h.reports.Keys - {id}, HISTORY_PREFIX + eventId);
  }
}
