/**
 How far the promises about reports reach: when the newest report is still there although others were
 overwritten, and what happens to the numbering once the completion counter has saturated.
 */
module ReportLimits {
  import opened Common
  import opened Model
  import opened Ledger
  import opened ReportHistory

  // The newest completion.

  /** `a` completed no earlier than `b`: by time, then by ordinal. */
  predicate AtLeast(ordinals: map<string, nat>, all: map<string, Report>, a: string, b: string)
    requires a in all && b in all && a in ordinals && b in ordinals
  {
    || all[a].completedAt > all[b].completedAt
    || (all[a].completedAt == all[b].completedAt && ordinals[a] >= ordinals[b])
  }

  ghost predicate IsNewest(h: History, all: map<string, Report>, id: string) {
    id in all && id in h.ordinals
    && forall other :: other in all && other in h.ordinals ==> AtLeast(h.ordinals, all, id, other)
  }

  /** Some completion that is not deleted is at least as new. */
  ghost predicate Outlived(h: History, all: map<string, Report>, id: string) {
    id in all && id in h.ordinals
    && exists a :: a in all && a in h.ordinals && a !in h.deleted && AtLeast(h.ordinals, all, a, id)
  }

  ghost predicate DeletedAreOutlived(h: History, all: map<string, Report>) {
    forall id :: id in h.deleted ==> Outlived(h, all, id)
  }

  lemma {:induction false} NewestAmong(ordinals: map<string, nat>, all: map<string, Report>, ids: set<string>)
      returns (newest: string)
    requires ids != {} && ids <= all.Keys && ids <= ordinals.Keys
    ensures newest in ids && forall id :: id in ids ==> AtLeast(ordinals, all, newest, id)
    decreases ids
  {
    var some :| some in ids;
    var rest := ids - {some};
    assert ids == rest + {some};
    if rest == {} {
      newest := some;
    } else {
      var best := NewestAmong(ordinals, all, rest);
      newest := if AtLeast(ordinals, all, some, best) then some else best;
    }
  }

  /** Deletion refuses the latest report, so one that stays is at least as new as the one it removes. */
  lemma DeletionIsOutlived(h: History, all: map<string, Report>, active: map<string, Report>, eventId: string)
      returns (id: string)
    requires Conserved(h, active) && Numbered(h, all) && Deleted(h, eventId).Ok?
    requires forall x :: x in active ==> x in all && all[x] == active[x]
    ensures id in all && id in h.ordinals && id !in h.deleted && id != eventId
    ensures eventId in all && eventId in h.ordinals && AtLeast(h.ordinals, all, id, eventId)
  {
    var key := FirstKey(h.eventIds, eventId);
    var latest := LatestAmong(h, h.reports.Keys);
    assert IsLatest(h, latest);
    assert latest != key;
    assert Newer(h, latest, key);
    id := h.eventIds[latest];
    assert id in h.eventIds.Values;
  }

  /** What was outlived stays so while completions are added and nothing more is deleted. */
  lemma OutlivedStays(h: History, t: History, all: map<string, Report>, more: map<string, Report>, id: string)
    requires Outlived(h, all, id) && t.deleted == h.deleted
    requires forall x :: x in all ==> x in more && more[x] == all[x]
    requires forall x :: x in h.ordinals ==> x in t.ordinals && t.ordinals[x] == h.ordinals[x]
    ensures Outlived(t, more, id)
  {
    var a :| a in all && a in h.ordinals && a !in h.deleted && AtLeast(h.ordinals, all, a, id);
    assert AtLeast(t.ordinals, more, a, id);
  }

  /** One more deletion: what the deleted one outlived, the one that stays outlives. */
  lemma DeletionOutlives(h: History, t: History, all: map<string, Report>, eventId: string, kept: string, id: string)
    requires t.deleted == h.deleted + {eventId} && t.ordinals == h.ordinals
    requires kept in all && kept in h.ordinals && kept !in t.deleted
    requires eventId in all && eventId in h.ordinals && AtLeast(h.ordinals, all, kept, eventId)
    requires id == eventId || Outlived(h, all, id)
    ensures Outlived(t, all, id)
  {
    if id == eventId {
      assert AtLeast(t.ordinals, all, kept, id);
    } else {
      var a :| a in all && a in h.ordinals && a !in h.deleted && AtLeast(h.ordinals, all, a, id);
      var b := if a == eventId then kept else a;
      assert AtLeast(t.ordinals, all, b, id);
    }
  }

  lemma StepKeepsOutlived(s: State, all: map<string, Report>, lost: set<string>, e: Envelope)
    requires Partitioned(s, all, lost) && Numbered(s.history, all)
    requires DeletedAreOutlived(s.history, all) && Apply(s, e).Ok?
    ensures DeletedAreOutlived(Apply(s, e).value.history,
                               if CompletesNow(s, e) then all[e.eventId := e.event.report] else all)
  {
    hide Apply, Conserved, Deleted, WithReport, Outlived;
    HistoryStep(s, e);
    var h, t := s.history, Apply(s, e).value.history;
    if CompletesNow(s, e) {
      var more := all[e.eventId := e.event.report];
      CompletionExtends(h, e.eventId, e.event.report);
      forall id | id in t.deleted ensures Outlived(t, more, id) {
        OutlivedStays(h, t, all, more, id);
      }
    } else if t != h {
      var kept := DeletionIsOutlived(h, all, all - lost, e.event.reportEventId);
      DeletionShape(h, e.event.reportEventId);
      forall id | id in t.deleted ensures Outlived(t, all, id) {
        DeletionOutlives(h, t, all, e.event.reportEventId, kept, id);
      }
    }
  }

  lemma CompletionExtends(h: History, eventId: string, report: Report)
    ensures var t := WithReport(h, eventId, report);
            t.deleted == h.deleted && t.ordinals == h.ordinals[eventId := NextOrdinal(h)]
  {
    hide Displaced;
  }

  lemma DeletionShape(h: History, eventId: string)
    requires Deleted(h, eventId).Ok?
    ensures Deleted(h, eventId).value.deleted == h.deleted + {eventId}
    ensures Deleted(h, eventId).value.ordinals == h.ordinals
  {
    hide LatestIs;
  }

  lemma {:induction false} RunsDeleteOnlyOutlived(run: seq<Envelope>)
    ensures DeletedAreOutlived(RunState(run).history, Completions(run))
  {
    hide Apply, Partitioned, Numbered, DeletedAreOutlived;
    if run == [] {
      NothingDeleted();
    } else {
      var init, e := run[..|run| - 1], run[|run| - 1];
      RunsDeleteOnlyOutlived(init);
      EveryCompletionIsAccountedFor(init);
      RunsNumberCompletions(init);
      if Apply(RunState(init), e).Ok? {
        StepKeepsOutlived(RunState(init), Completions(init), Overwritten(init), e);
      }
    }
  }

  lemma NothingDeleted()
    ensures DeletedAreOutlived(EMPTY.history, map[])
  {
  }

  /** An active report is the newest exactly when its completion is. */
  lemma NewestActive(h: History, all: map<string, Report>, active: map<string, Report>, key: string)
    requires Conserved(h, active) && Numbered(h, all) && key in h.eventIds
    requires forall id :: id in active ==> id in all && all[id] == active[id]
    ensures Newest(h, all, key) <==> IsNewest(h, all, h.eventIds[key])
  {
    var id := h.eventIds[key];
    assert h.reports[key] == all[id] && id in h.ordinals && OrdinalOf(h, key) == h.ordinals[id];
    if Newest(h, all, key) {
      forall other | other in all && other in h.ordinals ensures AtLeast(h.ordinals, all, id, other) {
        assert AtLeastAsNew(h, all, key, other);
      }
    }
    if IsNewest(h, all, id) {
      forall other | other in all && other in h.ordinals ensures AtLeastAsNew(h, all, key, other) {
        assert AtLeast(h.ordinals, all, id, other);
      }
    }
  }

  lemma NewestIsUnique(h: History, all: map<string, Report>, a: string, b: string)
    requires Numbered(h, all) && |all| <= MAX_COMPLETIONS && IsNewest(h, all, a) && IsNewest(h, all, b)
    ensures a == b
  {
    assert AtLeast(h.ordinals, all, a, b) && AtLeast(h.ordinals, all, b, a);
  }

  /**
   In every run a newest report ever completed is still active unless a step that clashed overwrote one:
   deletions alone never remove the last of them. Until the counter saturates there is only one newest
   completion, and it is still active exactly when it was not overwritten.
   */
  lemma NewestIsKept(run: seq<Envelope>)
    ensures var h, all := RunState(run).history, Completions(run);
            && (NoNewestIn(h, all, Overwritten(run)) ==> NewestKept(h, all))
            && (|all| <= MAX_COMPLETIONS ==> (NewestKept(h, all) <==> NoNewestIn(h, all, Overwritten(run))))
  {
    hide Apply, RunState, Completions, Overwritten;
    var h, all, lost := RunState(run).history, Completions(run), Overwritten(run);
    EveryCompletionIsAccountedFor(run);
    RunsNumberCompletions(run);
    RunsDeleteOnlyOutlived(run);
    if all.Keys != {} {
      hide Numbered, Outlived, Conserved, DeletedAreOutlived, Newest, IsNewest, NoNewestIn;
      SomeNewestIsActive(h, all, lost);
      if key :| Newest(h, all, key) {
        OnlyNewestIsActive(h, all, lost, key);
      }
    } else {
      NoCompletionNoNewest(h, all, lost);
    }
  }

  ghost predicate NoNewestIn(h: History, all: map<string, Report>, lost: set<string>) {
    forall id :: IsNewest(h, all, id) ==> id !in lost
  }

  lemma NoCompletionNoNewest(h: History, all: map<string, Report>, lost: set<string>)
    requires all.Keys == {}
    ensures NoNewestIn(h, all, lost)
  {
  }

  lemma SomeNewestIsActive(h: History, all: map<string, Report>, lost: set<string>)
    requires lost <= all.Keys && Conserved(h, all - lost) && Numbered(h, all) && all.Keys != {}
    requires DeletedAreOutlived(h, all)
    ensures NoNewestIn(h, all, lost) ==> exists key :: Newest(h, all, key)
  {
    if NoNewestIn(h, all, lost) {
      var id := NewestAmong(h.ordinals, all, all.Keys);
      assert IsNewest(h, all, id);
      if id in h.deleted {
        assert Outlived(h, all, id);
        var a :| a in all && a in h.ordinals && a !in h.deleted && AtLeast(h.ordinals, all, a, id);
        forall other | other in all && other in h.ordinals ensures AtLeast(h.ordinals, all, a, other) {
          assert AtLeast(h.ordinals, all, id, other);
        }
        id := a;
      }
      assert IsNewest(h, all, id) && id in all - lost;
      var key :| key in h.eventIds && h.eventIds[key] == id;
      NewestActive(h, all, all - lost, key);
    }
  }

  lemma OnlyNewestIsActive(h: History, all: map<string, Report>, lost: set<string>, key: string)
    requires lost <= all.Keys && Conserved(h, all - lost) && Numbered(h, all) && Newest(h, all, key)
    ensures |all| <= MAX_COMPLETIONS ==> NoNewestIn(h, all, lost)
  {
    NewestActive(h, all, all - lost, key);
    var id := h.eventIds[key];
    assert id in all - lost;
    if |all| <= MAX_COMPLETIONS {
      forall other | IsNewest(h, all, other) ensures other !in lost {
        NewestIsUnique(h, all, id, other);
      }
    }
  }

  /** The clashing run, when the report that it overwrites is the newer one: the newest report is gone. */
  lemma NewestIsOverwritten(founding: Envelope, one: Envelope, two: Envelope)
    requires Founds(founding) && CompletesAfter(founding, one) && CompletesAfter(founding, two)
    requires founding.eventId != one.eventId && founding.eventId != two.eventId && one.eventId != two.eventId
    requires one.event.report.id == HISTORY_PREFIX + two.eventId == two.event.report.id
    requires one.event.report.completedAt > two.event.report.completedAt
    ensures !NewestKept(RunState([founding, one, two]).history, Completions([founding, one, two]))
  {
    hide Apply, RunState, Completions, Overwritten, Clashes, Founds, CompletesAfter;
    var run := [founding, one, two];
    var s, all := RunState(run), Completions(run);
    ClashHappens(founding, one, two);
    EveryCompletionIsAccountedFor(run);
    RunsNumberCompletions(run);
    hide Numbered, NewestKept;
    NumbersCover(s.history, all);
    assert one.eventId in Overwritten(run);
    assert IsNewest(s.history, all, one.eventId);
    assert |all| <= MAX_COMPLETIONS by { assert all.Keys == {one.eventId, two.eventId}; }
    NewestIsKept(run);
  }

  lemma NumbersCover(h: History, all: map<string, Report>)
    requires Numbered(h, all)
    ensures h.ordinals.Keys == all.Keys
  {
  }

  // Past the last ordinal.

  /** `n` copies of one character. */
  function Suffix(n: nat): (s: string)
    ensures |s| == n
  {
    if n == 0 then "" else Suffix(n - 1) + "x"
  }

  /** A workspace and `n` completions of one report, each under an event id of its own. */
  function Many(founding: Envelope, e: Envelope, n: nat): seq<Envelope> {
    if n == 0 then [founding]
    else Many(founding, e, n - 1) + [e.(eventId := founding.eventId + Suffix(n))]
  }

  /** What `n` completions of the family leave, as far as the next one needs it. */
  ghost predicate After(founding: Envelope, s: State, all: map<string, Report>, n: nat) {
    && founding.event.WorkspaceCreated?
    && s.workspace == Founded(EMPTY.workspace, founding) && s.goals == EMPTY.goals
    && (forall id :: id in s.applied ==> |id| <= |founding.eventId| + n)
    && all.Keys <= s.applied && |all| == n
  }

  lemma OneMoreCompletes(founding: Envelope, s: State, all: map<string, Report>, n: nat, e: Envelope)
    requires Founds(founding) && CompletesAfter(founding, e) && After(founding, s, all, n)
    requires |e.eventId| == |founding.eventId| + n + 1
    ensures CompletesNow(s, e)
    ensures After(founding, Apply(s, e).value, all[e.eventId := e.event.report], n + 1)
  {
    hide Apply, Founds, WithReport, Founded;
    assert e.eventId !in s.applied;
    CompletionApplies(founding, s, e);
    assert all[e.eventId := e.event.report].Keys == all.Keys + {e.eventId};
  }

  lemma FoundingIsFirst(founding: Envelope)
    requires Founds(founding)
    ensures After(founding, RunState([founding]), Completions([founding]), 0)
  {
    assert [founding][..0] == [];
    assert RunState([founding]) == Apply(EMPTY, founding).value;
  }

  lemma {:induction false} ManyComplete(founding: Envelope, e: Envelope, n: nat)
    requires Founds(founding) && CompletesAfter(founding, e)
    ensures After(founding, RunState(Many(founding, e, n)), Completions(Many(founding, e, n)), n)
  {
    hide Apply, Founds, After;
    if n == 0 {
      FoundingIsFirst(founding);
    } else {
      var run, init := Many(founding, e, n), Many(founding, e, n - 1);
      var last := e.(eventId := founding.eventId + Suffix(n));
      ManyComplete(founding, e, n - 1);
      assert run[..|run| - 1] == init && run[|run| - 1] == last;
      OneMoreCompletes(founding, RunState(init), Completions(init), n - 1, last);
    }
  }

  /** One completion more than the counter can count: two completions share an ordinal. */
  lemma OrdinalsRepeat(founding: Envelope, e: Envelope)
    requires Founds(founding) && CompletesAfter(founding, e)
    ensures !Injective(RunState(Many(founding, e, MAX_COMPLETIONS + 1)).history.ordinals)
    ensures Injective(RunState(Many(founding, e, MAX_COMPLETIONS)).history.ordinals)
  {
    hide RunState, Completions, Many, Founds;
    ManyComplete(founding, e, MAX_COMPLETIONS + 1);
    ManyComplete(founding, e, MAX_COMPLETIONS);
    RunOrdinalsAreUniqueIff(Many(founding, e, MAX_COMPLETIONS + 1));
    RunOrdinalsAreUniqueIff(Many(founding, e, MAX_COMPLETIONS));
  }
}
