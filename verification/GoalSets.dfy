/** Goal sets and actions over every run of the ledger. */
module GoalSets {
  import opened Text
  import opened Common
  import opened Model
  import opened Ledger
  import opened ReportHistory

  // A replacement set has contiguous positions, although the loop never tests that.

  function PositionSet(versions: seq<GoalVersion>): set<nat> {
    set i | 0 <= i < |versions| :: versions[i].position
  }

  lemma {:induction false} DistinctPositionsCount(versions: seq<GoalVersion>)
    requires forall i, j :: 0 <= i < j < |versions| ==> versions[i].position != versions[j].position
    ensures |PositionSet(versions)| == |versions|
  {
    if versions != [] {
      var init, last := versions[..|versions| - 1], versions[|versions| - 1];
      DistinctPositionsCount(init);
      assert PositionSet(versions) == PositionSet(init) + {last.position};
      assert last.position !in PositionSet(init);
    }
  }

  /** An accepted replacement of n goals uses each of the positions 1..n exactly once. */
  lemma AcceptedPositionsAreContiguous(versions: seq<GoalVersion>)
    requires AcceptableGoalSet(versions)
    ensures PositionSet(versions) == Range(|versions|)
    ensures forall i, j :: 0 <= i < j < |versions| ==> versions[i].position != versions[j].position
  {
    forall i, j | 0 <= i < j < |versions| ensures versions[i].position != versions[j].position {
      assert AcceptableAt(versions, j);
    }
    DistinctPositionsCount(versions);
    forall k | k in PositionSet(versions) ensures k in Range(|versions|) {
      var i :| 0 <= i < |versions| && versions[i].position == k;
      assert AcceptableAt(versions, i);
    }
    SubsetIsSmaller(PositionSet(versions), Range(|versions|));
  }

  lemma {:induction false} ApprovalsAreComplete(versions: seq<GoalVersion>)
    requires forall i, j :: 0 <= i < j < |versions| ==> versions[i].goalId != versions[j].goalId
    ensures |ApprovalsOf(versions)| == |versions|
    ensures forall goal :: goal in ApprovalsOf(versions) ==> Named(versions, goal)
    ensures forall i :: 0 <= i < |versions| ==>
              versions[i].goalId in ApprovalsOf(versions) && ApprovalsOf(versions)[versions[i].goalId] == versions[i].id
  {
    if versions != [] {
      var init, last := versions[..|versions| - 1], versions[|versions| - 1];
      var m, n := ApprovalsOf(init), ApprovalsOf(versions);
      ApprovalsAreComplete(init);
      assert n == m[last.goalId := last.id];
      hide ApprovalsOf;
      assert versions == init + [last];
      OneMoreApproval(init, last, m);
    }
  }

  lemma OneMoreApproval(init: seq<GoalVersion>, last: GoalVersion, m: map<string, string>)
    requires forall i :: 0 <= i < |init| ==> init[i].goalId != last.goalId
    requires |m| == |init| && forall goal :: goal in m ==> Named(init, goal)
    requires forall i :: 0 <= i < |init| ==> init[i].goalId in m && m[init[i].goalId] == init[i].id
    ensures var n, versions := m[last.goalId := last.id], init + [last];
            && |n| == |versions| && (forall goal :: goal in n ==> Named(versions, goal))
            && forall i :: 0 <= i < |versions| ==> versions[i].goalId in n && n[versions[i].goalId] == versions[i].id
  {
    var n, versions := m[last.goalId := last.id], init + [last];
    assert versions[|init|] == last;
    forall goal | goal in m ensures goal != last.goalId && Named(versions, goal) {
      var i :| 0 <= i < |init| && init[i].goalId == goal;
      assert versions[i] == init[i];
    }
    assert n.Keys == m.Keys + {last.goalId};
  }

  ghost predicate Named(versions: seq<GoalVersion>, goal: string) {
    exists i :: 0 <= i < |versions| && versions[i].goalId == goal
  }

  /** It approves exactly n goals, each by its own version. */
  lemma AcceptedSetApprovesEveryGoal(versions: seq<GoalVersion>)
    requires AcceptableGoalSet(versions)
    ensures |ApprovalsOf(versions)| == |versions|
    ensures forall i :: 0 <= i < |versions| ==>
              versions[i].goalId in ApprovalsOf(versions) && ApprovalsOf(versions)[versions[i].goalId] == versions[i].id
  {
    forall i, j | 0 <= i < j < |versions| ensures versions[i].goalId != versions[j].goalId {
      assert AcceptableAt(versions, j);
    }
    ApprovalsAreComplete(versions);
  }

  // Reachable states.

  /** Stored versions are valid and every approval resolves to a stored version. */
  ghost predicate GoalsSound(goals: Goals) {
    && (forall id :: id in goals.versions ==> goals.versions[id].id == id && goals.versions[id].Valid())
    && forall goal :: goal in goals.approved ==> goals.approved[goal] in goals.versions
  }

  /** An action waiting for verification carries a completion note. */
  ghost predicate ActionsSound(actions: map<string, Action>) {
    forall id :: id in actions ==>
      actions[id].id == id && (actions[id].status == ReadyForVerification ==> !NoteMissing(actions[id].lastNote))
  }

  lemma {:induction false} IndexedVersions(versions: seq<GoalVersion>)
    requires forall i :: 0 <= i < |versions| ==> versions[i].Valid()
    ensures var m := VersionsById(versions);
            && (forall id :: id in m ==> m[id].id == id && m[id].Valid())
            && forall i :: 0 <= i < |versions| ==> versions[i].id in m
  {
    if versions != [] {
      var init := versions[..|versions| - 1];
      IndexedVersions(init);
      assert forall i :: 0 <= i < |init| ==> init[i] == versions[i];
    }
  }

  lemma {:induction false} ApprovalsResolve(versions: seq<GoalVersion>)
    ensures forall goal :: goal in ApprovalsOf(versions) ==> ApprovalsOf(versions)[goal] in VersionsById(versions)
  {
    if versions != [] {
      ApprovalsResolve(versions[..|versions| - 1]);
    }
  }

  lemma GoalsAreSoundParts(goals: Goals)
    requires GoalsSound(goals)
    ensures forall id :: id in goals.versions ==> goals.versions[id].id == id && goals.versions[id].Valid()
  {
  }

  lemma ReplacedGoalsAreSound(goals: Goals, versions: seq<GoalVersion>)
    requires GoalsSound(goals) && AcceptableGoalSet(versions)
    ensures GoalsSound(Goals(goals.versions + VersionsById(versions), ApprovalsOf(versions)))
  {
    hide Blank, GoalsSound;
    GoalsAreSoundParts(goals);
    forall i | 0 <= i < |versions| ensures versions[i].Valid() {
      assert AcceptableAt(versions, i);
    }
    hide AcceptableGoalSet, VersionsById, ApprovalsOf;
    IndexedVersions(versions);
    ApprovalsResolve(versions);
    UnionIsSound(goals.versions, VersionsById(versions), ApprovalsOf(versions));
  }

  lemma UnionIsSound(old': map<string, GoalVersion>, new': map<string, GoalVersion>, approved: map<string, string>)
    requires forall id :: id in old' ==> old'[id].id == id && old'[id].Valid()
    requires forall id :: id in new' ==> new'[id].id == id && new'[id].Valid()
    requires forall goal :: goal in approved ==> approved[goal] in new'
    ensures GoalsSound(Goals(old' + new', approved))
  {
    hide Blank;
  }

  lemma GoalsStep(goals: Goals, event: Event)
    requires event.GoalVersionProposed? || event.GoalVersionApproved? || event.GoalSetReplaced?
    requires GoalsSound(goals) && GoalsAfter(goals, event).Ok?
    ensures GoalsSound(GoalsAfter(goals, event).value)
  {
    hide AcceptableGoalSet, VersionsById, ApprovalsOf, Blank;
    if event.GoalSetReplaced? {
      ReplacedGoalsAreSound(goals, event.versions);
    }
  }

  lemma StepKeepsGoalsAndActions(s: State, e: Envelope)
    requires GoalsSound(s.goals) && ActionsSound(s.content.actions) && Apply(s, e).Ok?
    ensures GoalsSound(Apply(s, e).value.goals) && ActionsSound(Apply(s, e).value.content.actions)
  {
    hide GoalsSound, HistoryAfter, GoalsAfter, FoundingAllowed, Founded, Authorized, Blank;
    if e.event.GoalVersionProposed? || e.event.GoalVersionApproved? || e.event.GoalSetReplaced? {
      if GoalsAfter(s.goals, e.event).Ok? {
        GoalsStep(s.goals, e.event);
      }
    }
  }

  /** In every reachable state every approved goal resolves to a stored valid version. */
  lemma {:induction false} RunsKeepGoalsAndActions(run: seq<Envelope>)
    ensures GoalsSound(RunState(run).goals)
    ensures ActionsSound(RunState(run).content.actions)
  {
    hide Apply;
    if run != [] {
      var init, e := run[..|run| - 1], run[|run| - 1];
      RunsKeepGoalsAndActions(init);
      if Apply(RunState(init), e).Ok? {
        StepKeepsGoalsAndActions(RunState(init), e);
      }
    }
  }
}
