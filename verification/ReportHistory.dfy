/**
 What the ledger promises about reports over every run: nothing completed is lost, nothing deleted
 comes back, completions are numbered without gaps, and the newest report is always still there.
 */
module ReportHistory {
  import opened Common
  import opened Model
  import opened Ledger
  import Projection

  /** `all` maps every completion event there ever was to its report. */
  ghost predicate Conserved(h: History, all: map<string, Report>) {
    && h.reports.Keys == h.eventIds.Keys
    && Injective(h.eventIds)
    && all.Keys == h.eventIds.Values + h.deleted
    && h.eventIds.Values !! h.deleted
    && forall key :: key in h.reports ==> h.eventIds[key] in all && all[h.eventIds[key]] == h.reports[key]
  }

  /** Ordinals count the completions 1, 2, 3, ... until the counter saturates. */
  ghost predicate Numbered(h: History, all: map<string, Report>) {
    && h.ordinals.Keys == all.Keys
    && h.completionCount == (if |all| <= MAX_COMPLETIONS then |all| else MAX_COMPLETIONS)
    && (forall id :: id in h.ordinals ==> 1 <= h.ordinals[id] <= h.completionCount)
    && (|all| <= MAX_COMPLETIONS ==>
          && Injective(h.ordinals)
          && forall n :: 1 <= n <= |all| ==> n in h.ordinals.Values)
  }

  /** The report under `key` is at least as new as completion `id`: by time, then by ordinal. */
  ghost predicate AtLeastAsNew(h: History, all: map<string, Report>, key: string, id: string)
    requires Listed(h, key) && id in all && id in h.ordinals
  {
    || h.reports[key].completedAt > all[id].completedAt
    || (h.reports[key].completedAt == all[id].completedAt && OrdinalOf(h, key) >= h.ordinals[id])
  }

  ghost predicate Newest(h: History, all: map<string, Report>, key: string) {
    Listed(h, key) && forall id :: id in all && id in h.ordinals ==> AtLeastAsNew(h, all, key, id)
  }

  ghost predicate NewestKept(h: History, all: map<string, Report>) {
    all.Keys != {} ==> exists key :: Newest(h, all, key)
  }

  /** The numbering is one-to-one exactly until the counter saturates: beyond, ordinals repeat. */
  lemma OrdinalsAreUniqueIff(h: History, all: map<string, Report>)
    requires Numbered(h, all)
    ensures Injective(h.ordinals) <==> |all| <= MAX_COMPLETIONS
    ensures |all| <= MAX_COMPLETIONS ==> h.ordinals.Values == Range(|all|)
  {
    assert |h.ordinals| == |h.ordinals.Keys| == |all.Keys|;
    InjectiveIffAsManyValues(h.ordinals);
    assert h.ordinals.Values <= Range(h.completionCount);
    SubsetIsSmaller(h.ordinals.Values, Range(h.completionCount));
  }

  // Completing a report.

  /** The report being replaced would be moved onto the key of its replacement. */
  predicate Clash(h: History, eventId: string, id: string) {
    id in h.reports && Demoted(h, eventId, id) == id
  }

  /** A report id that does not extend its own event's history key never clashes. */
  lemma NoClashOutsideHistory(h: History, eventId: string, id: string)
    requires !(HISTORY_PREFIX + eventId <= id)
    ensures !Clash(h, eventId, id)
  {
  }

  lemma DisplacedConserves(h: History, all: map<string, Report>, eventId: string, id: string)
    requires Conserved(h, all) && !Clash(h, eventId, id)
    ensures Conserved(Displaced(h, eventId, id), all)
    ensures id !in Displaced(h, eventId, id).reports
    ensures Displaced(h, eventId, id).eventIds.Values == h.eventIds.Values
  {
    hide HistoryKey;
    if id in h.reports {
      var d, key := Displaced(h, eventId, id), Demoted(h, eventId, id);
      assert d.eventIds == (h.eventIds - {id})[key := h.eventIds[id]];
      assert d.eventIds.Values == h.eventIds.Values by {
        forall v | v in h.eventIds.Values ensures v in d.eventIds.Values {
          var k :| k in h.eventIds && h.eventIds[k] == v;
          var k' := if k == id then key else k;
          assert k' in d.eventIds && d.eventIds[k'] == v;
        }
        forall v | v in d.eventIds.Values ensures v in h.eventIds.Values {
          var k :| k in d.eventIds && d.eventIds[k] == v;
          var k' := if k == key then id else k;
          assert k' in h.eventIds && h.eventIds[k'] == v;
        }
      }
    }
  }

  lemma CompletionConserves(h: History, all: map<string, Report>, eventId: string, report: Report)
    requires Conserved(h, all) && eventId !in all && !Clash(h, eventId, report.id)
    ensures Conserved(WithReport(h, eventId, report), all[eventId := report])
  {
    DisplacedConserves(h, all, eventId, report.id);
    var d, t := Displaced(h, eventId, report.id), WithReport(h, eventId, report);
    AddedValue(d.eventIds, report.id, eventId);
    forall key | key in d.eventIds ensures d.eventIds[key] != eventId {
      assert d.eventIds[key] in d.eventIds.Values;
    }
  }

  lemma AddedValue(m: map<string, string>, key: string, value: string)
    requires key !in m
    ensures m[key := value].Values == m.Values + {value}
  {
    var n := m[key := value];
    assert n[key] == value;
    forall v | v in m.Values ensures v in n.Values {
      var k :| k in m && m[k] == v;
      assert n[k] == v;
    }
  }

  /** Conservation holds exactly when there is no clash: with one, the displaced report is lost. */
  lemma CompletionConservesIff(h: History, all: map<string, Report>, eventId: string, report: Report)
    requires Conserved(h, all) && eventId !in all
    ensures Conserved(WithReport(h, eventId, report), all[eventId := report]) <==> !Clash(h, eventId, report.id)
  {
    if Clash(h, eventId, report.id) {
      var t, lost := WithReport(h, eventId, report), h.eventIds[report.id];
      assert lost in h.eventIds.Values;
      assert lost in all && lost != eventId && lost !in h.deleted;
      forall key | key in t.eventIds ensures t.eventIds[key] != lost {
        if key != report.id {
          assert key in h.eventIds && h.eventIds[key] == t.eventIds[key];
        }
      }
    } else {
      CompletionConserves(h, all, eventId, report);
    }
  }

  lemma CompletionNumbers(h: History, all: map<string, Report>, eventId: string, report: Report)
    requires Numbered(h, all) && eventId !in all
    ensures Numbered(WithReport(h, eventId, report), all[eventId := report])
  {
    hide Displaced;
    var t, all' := WithReport(h, eventId, report), all[eventId := report];
    assert |all'| == |all| + 1 by {
      assert all'.Keys == all.Keys + {eventId};
    }
    if |all'| <= MAX_COMPLETIONS {
      forall n | 1 <= n <= |all'| ensures n in t.ordinals.Values {
        if n == |all'| {
          assert t.ordinals[eventId] == n;
        } else {
          assert n in h.ordinals.Values;
          var id :| id in h.ordinals && h.ordinals[id] == n;
          assert t.ordinals[id] == n;
        }
      }
    }
  }

  /** A stored report survives a completion, under its own key or under a history key. */
  lemma StoredReportSurvives(h: History, all: map<string, Report>, eventId: string, report: Report, key: string)
    returns (kept: string)
    requires Conserved(h, all) && Numbered(h, all) && eventId !in all && !Clash(h, eventId, report.id)
    requires Listed(h, key)
    ensures var t := WithReport(h, eventId, report);
            Listed(t, kept) && t.reports[kept] == h.reports[key] && OrdinalOf(t, kept) == OrdinalOf(h, key)
  {
    hide HistoryKey;
    StoredEventIsOld(h, all, eventId, key);
    hide Conserved, Numbered;
    kept := if key == report.id then Demoted(h, eventId, key) else key;
  }

  lemma StoredEventIsOld(h: History, all: map<string, Report>, eventId: string, key: string)
    requires Conserved(h, all) && eventId !in all && Listed(h, key)
    ensures h.eventIds[key] in all && h.eventIds[key] != eventId
  {
  }

  lemma NewReportFacts(h: History, eventId: string, report: Report)
    ensures var t := WithReport(h, eventId, report);
            && Listed(t, report.id) && t.reports[report.id] == report
            && OrdinalOf(t, report.id) == t.completionCount
            && t.ordinals == h.ordinals[eventId := t.completionCount]
  {
    hide Displaced;
  }

  lemma CompletionKeepsNewest(h: History, all: map<string, Report>, eventId: string, report: Report)
    requires Conserved(h, all) && Numbered(h, all) && NewestKept(h, all)
    requires eventId !in all && !Clash(h, eventId, report.id)
    ensures NewestKept(WithReport(h, eventId, report), all[eventId := report])
  {
    hide Conserved, OrdinalOf, Clash;
    var t, all' := WithReport(h, eventId, report), all[eventId := report];
    NewReportFacts(h, eventId, report);
    CompletionNumbers(h, all, eventId, report);
    if all.Keys == {} {
      hide WithReport, Numbered;
      assert all'.Keys == {eventId};
      assert Newest(t, all', report.id);
    } else {
      var prior :| Newest(h, all, prior);
      var kept := StoredReportSurvives(h, all, eventId, report, prior);
      hide WithReport;
      var newest := if report.completedAt >= h.reports[prior].completedAt then report.id else kept;
      forall id | id in all' && id in t.ordinals ensures AtLeastAsNew(t, all', newest, id) {
        if id != eventId { assert AtLeastAsNew(h, all, prior, id); }
      }
      assert Newest(t, all', newest);
    }
  }

  // Deleting a report.

  lemma DeletionConserves(h: History, all: map<string, Report>, eventId: string)
    requires Conserved(h, all) && Deleted(h, eventId).Ok?
    ensures Conserved(Deleted(h, eventId).value, all)
    ensures Deleted(h, eventId).value.deleted == h.deleted + {eventId}
    ensures Deleted(h, eventId).value.ordinals == h.ordinals
    ensures Deleted(h, eventId).value.completionCount == h.completionCount
  {
    hide LatestIs;
    var t, key := Deleted(h, eventId).value, FirstKey(h.eventIds, eventId);
    assert t.eventIds.Values == h.eventIds.Values - {eventId} by {
      forall v | v in h.eventIds.Values && v != eventId ensures v in t.eventIds.Values {
        var k :| k in h.eventIds && h.eventIds[k] == v;
        assert k in t.eventIds && t.eventIds[k] == v;
      }
    }
  }

  lemma {:induction false} LatestAmong(h: History, keys: set<string>) returns (latest: string)
    requires keys != {} && forall key :: key in keys ==> Listed(h, key)
    ensures latest in keys
    ensures forall key :: key in keys && key != latest ==> Newer(h, latest, key)
    decreases keys
  {
    hide Newer;
    var some :| some in keys;
    var rest := keys - {some};
    assert keys == rest + {some};
    if rest == {} {
      latest := some;
    } else {
      var best := LatestAmong(h, rest);
      Projection.NewerTotal(h, some, best);
      latest := if Newer(h, some, best) then some else best;
      forall key | key in keys && key != latest ensures Newer(h, latest, key) {
        if latest == some && key != best {
          Projection.NewerTransitive(h, some, best, key);
        }
      }
    }
  }

  /** The report that deletion refuses to touch is at least as new as everything that ever completed. */
  lemma LatestIsNewest(h: History, all: map<string, Report>, newest: string) returns (latest: string)
    requires Conserved(h, all) && Numbered(h, all) && Newest(h, all, newest)
    ensures IsLatest(h, latest) && Newest(h, all, latest)
  {
    latest := LatestAmong(h, h.reports.Keys);
    assert IsLatest(h, latest);
    if latest != newest {
      assert Newer(h, latest, newest);
      assert h.eventIds[latest] in h.ordinals && h.eventIds[newest] in h.ordinals;
      forall id | id in all && id in h.ordinals ensures AtLeastAsNew(h, all, latest, id) {
        assert AtLeastAsNew(h, all, newest, id);
      }
    }
  }

  lemma DeletionKeepsNewest(h: History, all: map<string, Report>, eventId: string)
    requires Conserved(h, all) && Numbered(h, all) && NewestKept(h, all)
    requires Deleted(h, eventId).Ok?
    ensures NewestKept(Deleted(h, eventId).value, all)
  {
    var t, key := Deleted(h, eventId).value, FirstKey(h.eventIds, eventId);
    if all.Keys != {} {
      var newest :| Newest(h, all, newest);
      var latest := LatestIsNewest(h, all, newest);
      assert h.eventIds[latest] != eventId;
      assert latest in t.reports && latest != key;
      forall id | id in all && id in t.ordinals ensures AtLeastAsNew(t, all, latest, id) {
        assert AtLeastAsNew(h, all, latest, id);
      }
      assert Newest(t, all, latest);
    }
  }

  // Runs: any sequence of envelopes, each applied or refused.

  ghost function RunState(run: seq<Envelope>): State {
    if run == [] then EMPTY
    else
      var s := RunState(run[..|run| - 1]);
      match Apply(s, run[|run| - 1])
      case Ok(t) => t
      case Err(_) => s
  }

  ghost predicate CompletesNow(s: State, e: Envelope) {
    e.event.ReportCompleted? && e.eventId !in s.applied && Apply(s, e).Ok?
  }

  /** Every report completed in the run, by the id of its completion event. */
  ghost function Completions(run: seq<Envelope>): map<string, Report> {
    if run == [] then map[]
    else
      var init, e := run[..|run| - 1], run[|run| - 1];
      if CompletesNow(RunState(init), e) then Completions(init)[e.eventId := e.event.report] else Completions(init)
  }

  /** No completed report uses an id that extends its own event's history key. */
  predicate OrdinaryIds(run: seq<Envelope>) {
    forall e :: e in run && e.event.ReportCompleted? ==> !(HISTORY_PREFIX + e.eventId <= e.event.report.id)
  }

  ghost predicate Sound(s: State, all: map<string, Report>) {
    && Conserved(s.history, all)
    && Numbered(s.history, all)
    && NewestKept(s.history, all)
    && all.Keys <= s.applied
  }

  /** What one envelope can do to the report history. */
  lemma HistoryStep(s: State, e: Envelope)
    ensures Apply(s, e).Ok? ==>
              var t := Apply(s, e).value;
              && s.applied <= t.applied
              && (|| t.history == s.history
                  || (CompletesNow(s, e) && t.history == WithReport(s.history, e.eventId, e.event.report)
                      && e.eventId in t.applied)
                  || (e.event.ReportDeleted? && Deleted(s.history, e.event.reportEventId) == Ok(t.history)))
    ensures CompletesNow(s, e) ==> Apply(s, e).value.history == WithReport(s.history, e.eventId, e.event.report)
  {
    hide GoalsAfter, ContentAfter, WithReport, Deleted, Founded, FoundingAllowed, Authorized, ApprovedSetMatches;
  }

  /** The step completes a report whose id is the history key its predecessor is moved to. */
  ghost predicate ClashesNow(s: State, e: Envelope) {
    CompletesNow(s, e) && Clash(s.history, e.eventId, e.event.report.id)
  }

  lemma StepIsSound(s: State, all: map<string, Report>, e: Envelope)
    requires Sound(s, all) && Apply(s, e).Ok? && !ClashesNow(s, e)
    ensures Sound(Apply(s, e).value, if CompletesNow(s, e) then all[e.eventId := e.event.report] else all)
  {
    hide Conserved, Numbered, NewestKept, Deleted, WithReport, Apply, Clash;
    HistoryStep(s, e);
    var t := Apply(s, e).value;
    if CompletesNow(s, e) {
      CompletionConserves(s.history, all, e.eventId, e.event.report);
      CompletionNumbers(s.history, all, e.eventId, e.event.report);
      CompletionKeepsNewest(s.history, all, e.eventId, e.event.report);
      assert e.eventId in t.applied by { AppliedNow(s, e); }
    } else if t.history != s.history {
      DeletionIsSound(s.history, all, e.event.reportEventId);
    }
  }

  lemma AppliedNow(s: State, e: Envelope)
    requires Apply(s, e).Ok?
    ensures e.eventId in Apply(s, e).value.applied
  {
    hide Project, FoundingAllowed, Founded, Authorized;
  }

  lemma DeletionIsSound(h: History, all: map<string, Report>, eventId: string)
    requires Conserved(h, all) && Numbered(h, all) && NewestKept(h, all) && Deleted(h, eventId).Ok?
    ensures var t := Deleted(h, eventId).value;
            Conserved(t, all) && Numbered(t, all) && NewestKept(t, all)
  {
    hide Conserved, NewestKept, Deleted;
    DeletionConserves(h, all, eventId);
    DeletionKeepsNewest(h, all, eventId);
  }

  lemma EmptyIsSound()
    ensures Sound(EMPTY, map[])
  {
  }

  // What holds in every run, whatever the report ids.

  /** Event ids are unique among the active reports, and none is both active and deleted. */
  ghost predicate Tidy(h: History, applied: set<string>) {
    && h.reports.Keys == h.eventIds.Keys && Injective(h.eventIds)
    && h.eventIds.Values !! h.deleted && h.eventIds.Values <= applied && h.deleted <= applied
  }

  lemma CompletionActivates(h: History, applied: set<string>, eventId: string, report: Report)
    requires Tidy(h, applied) && eventId !in applied
    ensures WithReport(h, eventId, report).eventIds.Values <= h.eventIds.Values + {eventId}
    ensures Tidy(WithReport(h, eventId, report), applied + {eventId})
  {
    hide HistoryKey;
    var t, key := WithReport(h, eventId, report), Demoted(h, eventId, report.id);
    forall k | k in t.eventIds && k != report.id
      ensures var old' := if k == key && report.id in h.reports then report.id else k;
              old' in h.eventIds && t.eventIds[k] == h.eventIds[old']
    {
    }
    forall k | k in h.eventIds ensures h.eventIds[k] != eventId {
      assert h.eventIds[k] in h.eventIds.Values;
    }
  }

  lemma DeletionDeactivates(h: History, applied: set<string>, eventId: string)
    requires Tidy(h, applied) && Deleted(h, eventId).Ok?
    ensures var t := Deleted(h, eventId).value;
            && t.eventIds.Values == h.eventIds.Values - {eventId} && t.deleted == h.deleted + {eventId}
            && eventId in h.eventIds.Values && Tidy(t, applied)
  {
    hide LatestIs;
    var t, key := Deleted(h, eventId).value, FirstKey(h.eventIds, eventId);
    forall v | v in h.eventIds.Values && v != eventId ensures v in t.eventIds.Values {
      var k :| k in h.eventIds && h.eventIds[k] == v;
      assert k in t.eventIds && t.eventIds[k] == v;
    }
    forall v | v in t.eventIds.Values ensures v in h.eventIds.Values && v != eventId {
      var k :| k in t.eventIds && t.eventIds[k] == v;
      assert h.eventIds[k] == v && h.eventIds[key] == eventId;
    }
  }

  /** One step adds at most its own event to the active ones, and deletes only an active one. */
  lemma StepKeepsTidy(s: State, e: Envelope)
    requires Tidy(s.history, s.applied) && Apply(s, e).Ok?
    ensures var t := Apply(s, e).value;
            && Tidy(t.history, t.applied)
            && s.history.deleted <= t.history.deleted && s.applied <= t.applied
            && (forall id :: id in t.history.eventIds.Values && id !in s.history.eventIds.Values ==> id !in s.applied)
            && (forall id :: id in t.history.deleted && id !in s.history.deleted ==> id in s.history.eventIds.Values)
  {
    hide Apply, Tidy, WithReport, Deleted;
    HistoryStep(s, e);
    var t := Apply(s, e).value;
    if t.history == s.history {
      TidyGrows(s.history, s.applied, t.applied);
    } else if CompletesNow(s, e) {
      CompletionActivates(s.history, s.applied, e.eventId, e.event.report);
      CompletionDeletesNothing(s.history, e.eventId, e.event.report);
      TidyGrows(t.history, s.applied + {e.eventId}, t.applied);
    } else {
      DeletionDeactivates(s.history, s.applied, e.event.reportEventId);
      TidyGrows(t.history, s.applied, t.applied);
    }
  }

  lemma CompletionDeletesNothing(h: History, eventId: string, report: Report)
    ensures WithReport(h, eventId, report).deleted == h.deleted
  {
  }

  lemma TidyGrows(h: History, applied: set<string>, more: set<string>)
    requires Tidy(h, applied) && applied <= more
    ensures Tidy(h, more)
  {
  }

  lemma EmptyIsTidy()
    ensures Tidy(EMPTY.history, EMPTY.applied)
  {
  }

  lemma {:induction false} RunsAreTidy(run: seq<Envelope>)
    ensures Tidy(RunState(run).history, RunState(run).applied)
  {
    hide Apply, Tidy;
    if run == [] {
      EmptyIsTidy();
    } else {
      RunsAreTidy(run[..|run| - 1]);
      if Apply(RunState(run[..|run| - 1]), run[|run| - 1]).Ok? {
        StepKeepsTidy(RunState(run[..|run| - 1]), run[|run| - 1]);
      }
    }
  }

  lemma StepKeepsNumbers(s: State, all: map<string, Report>, e: Envelope)
    requires Numbered(s.history, all) && all.Keys <= s.applied && Apply(s, e).Ok?
    ensures var t, more := Apply(s, e).value, if CompletesNow(s, e) then all[e.eventId := e.event.report] else all;
            Numbered(t.history, more) && more.Keys <= t.applied
  {
    hide Apply, Numbered, WithReport, Deleted;
    HistoryStep(s, e);
    AppliedNow(s, e);
    if CompletesNow(s, e) {
      CompletionNumbers(s.history, all, e.eventId, e.event.report);
    } else if Apply(s, e).value.history != s.history {
      DeletionKeepsNumbers(s.history, all, e.event.reportEventId);
    }
  }

  lemma DeletionKeepsNumbers(h: History, all: map<string, Report>, eventId: string)
    requires Numbered(h, all) && Deleted(h, eventId).Ok?
    ensures Numbered(Deleted(h, eventId).value, all)
  {
    hide LatestIs;
  }

  lemma EmptyIsNumbered()
    ensures Numbered(EMPTY.history, map[])
  {
  }

  /** In every run, clash or not, ordinals number the completions. */
  lemma {:induction false} RunsNumberCompletions(run: seq<Envelope>)
    ensures Numbered(RunState(run).history, Completions(run))
    ensures Completions(run).Keys <= RunState(run).applied
  {
    hide Apply, Numbered;
    if run == [] {
      EmptyIsNumbered();
    } else {
      var init, e := run[..|run| - 1], run[|run| - 1];
      RunsNumberCompletions(init);
      if Apply(RunState(init), e).Ok? {
        StepKeepsNumbers(RunState(init), Completions(init), e);
      }
    }
  }

  /** In every run ordinals are one-to-one, and exactly 1..count, until the counter saturates; never beyond. */
  lemma RunOrdinalsAreUniqueIff(run: seq<Envelope>)
    ensures Injective(RunState(run).history.ordinals) <==> |Completions(run)| <= MAX_COMPLETIONS
    ensures |Completions(run)| <= MAX_COMPLETIONS ==>
              RunState(run).history.ordinals.Values == Range(|Completions(run)|)
  {
    RunsNumberCompletions(run);
    OrdinalsAreUniqueIff(RunState(run).history, Completions(run));
  }

  /** Deletion is permanent: a deleted completion stays deleted and never becomes active again. */
  lemma {:induction false} DeletionIsPermanent(run: seq<Envelope>, more: seq<Envelope>, id: string)
    requires id in RunState(run).history.deleted
    ensures id in RunState(run + more).history.deleted
    ensures id !in RunState(run + more).history.eventIds.Values
  {
    hide Apply;
    if more == [] {
      assert run + more == run;
    } else {
      var init, e := more[..|more| - 1], more[|more| - 1];
      assert (run + more)[..|run + more| - 1] == run + init;
      DeletionIsPermanent(run, init, id);
      RunsAreTidy(run + init);
      if Apply(RunState(run + init), e).Ok? {
        StepKeepsTidy(RunState(run + init), e);
      }
    }
    RunsAreTidy(run + more);
  }

  // Exactly when nothing is lost.

  /** Some step of the run completes a report onto the key its predecessor was moved to. */
  ghost predicate Clashes(run: seq<Envelope>) {
    run != [] && (Clashes(run[..|run| - 1]) || ClashesNow(RunState(run[..|run| - 1]), run[|run| - 1]))
  }

  /** Completed, yet neither active nor deleted. */
  ghost predicate Lost(s: State, all: map<string, Report>, id: string) {
    id in all && id in s.applied && id !in s.history.eventIds.Values && id !in s.history.deleted
  }

  /** The completions whose report was overwritten, each at the step that clashed with it. */
  ghost function Overwritten(run: seq<Envelope>): set<string> {
    if run == [] then {}
    else
      var init, e := run[..|run| - 1], run[|run| - 1];
      Overwritten(init) + OverwrittenNow(RunState(init), e)
  }

  ghost function OverwrittenNow(s: State, e: Envelope): set<string> {
    if ClashesNow(s, e) && e.event.report.id in s.history.eventIds
    then {s.history.eventIds[e.event.report.id]} else {}
  }

  lemma ClashShape(h: History, eventId: string, report: Report)
    requires Clash(h, eventId, report.id) && report.id in h.eventIds
    ensures var t := WithReport(h, eventId, report);
            && t.eventIds == h.eventIds[report.id := eventId] && t.reports == h.reports[report.id := report]
            && t.deleted == h.deleted
  {
    hide HistoryKey;
  }

  /** Putting one value in the place of another, in a map that had each value once. */
  lemma ReplacedValue(m: map<string, string>, key: string, value: string)
    requires Injective(m) && key in m && value !in m.Values
    ensures Injective(m[key := value])
    ensures m[key := value].Values == m.Values - {m[key]} + {value}
  {
    var n := m[key := value];
    ValuesWithout(m, key);
    ValuesWithout(n, key);
    assert n - {key} == m - {key};
  }

  /** A clash puts the new completion in the place of the one it overwrites, and loses nothing else. */
  lemma ClashReplaces(h: History, all: map<string, Report>, eventId: string, report: Report)
    requires Conserved(h, all) && eventId !in all && Clash(h, eventId, report.id)
    ensures report.id in h.eventIds && h.eventIds[report.id] in all
    ensures Conserved(WithReport(h, eventId, report), (all - {h.eventIds[report.id]})[eventId := report])
  {
    hide WithReport, HistoryKey;
    assert report.id in h.eventIds && h.eventIds[report.id] in h.eventIds.Values;
    ClashShape(h, eventId, report);
    ReplacedValue(h.eventIds, report.id, eventId);
    var t, lost := WithReport(h, eventId, report), h.eventIds[report.id];
    forall key | key in t.reports && key != report.id ensures h.eventIds[key] != lost && h.eventIds[key] != eventId {
      assert key in h.eventIds && h.eventIds[key] in h.eventIds.Values;
    }
  }

  /** Leaving the overwritten ones aside, every completion is exactly one of active or deleted. */
  ghost predicate Partitioned(s: State, all: map<string, Report>, lost: set<string>) {
    lost <= all.Keys <= s.applied && Conserved(s.history, all - lost)
  }

  lemma StepKeepsPartition(s: State, all: map<string, Report>, lost: set<string>, e: Envelope)
    requires Partitioned(s, all, lost) && Apply(s, e).Ok?
    ensures Partitioned(Apply(s, e).value, if CompletesNow(s, e) then all[e.eventId := e.event.report] else all,
                        lost + OverwrittenNow(s, e))
  {
    hide Apply, Conserved, Deleted, WithReport, Clash;
    HistoryStep(s, e);
    AppliedNow(s, e);
    var h, kept := s.history, all - lost;
    if ClashesNow(s, e) {
      var report := e.event.report;
      ClashReplaces(h, kept, e.eventId, report);
      var one := h.eventIds[report.id];
      assert all[e.eventId := report] - (lost + {one}) == (kept - {one})[e.eventId := report];
    } else if CompletesNow(s, e) {
      CompletionConserves(h, kept, e.eventId, e.event.report);
      assert all[e.eventId := e.event.report] - (lost + {}) == kept[e.eventId := e.event.report];
    } else {
      assert lost + {} == lost;
      if Apply(s, e).value.history != h {
        DeletionConserves(h, kept, e.event.reportEventId);
      }
    }
  }

  lemma EmptyIsPartitioned()
    ensures Partitioned(EMPTY, map[], {})
  {
    var none: map<string, Report> := map[];
    assert none - {} == none;
  }

  /**
   In every run, clash or not, each completion is exactly one of active, deleted, or overwritten by a step
   that clashed with it.
   */
  lemma {:induction false} EveryCompletionIsAccountedFor(run: seq<Envelope>)
    ensures Partitioned(RunState(run), Completions(run), Overwritten(run))
  {
    hide Apply, Partitioned, OverwrittenNow;
    if run == [] {
      EmptyIsPartitioned();
    } else {
      var init, e := run[..|run| - 1], run[|run| - 1];
      EveryCompletionIsAccountedFor(init);
      if Apply(RunState(init), e).Ok? {
        StepKeepsPartition(RunState(init), Completions(init), Overwritten(init), e);
      } else {
        RefusedOverwritesNothing(RunState(init), e);
        assert Overwritten(init) + {} == Overwritten(init);
      }
    }
  }

  lemma RefusedOverwritesNothing(s: State, e: Envelope)
    requires Apply(s, e).Err?
    ensures OverwrittenNow(s, e) == {} && !CompletesNow(s, e)
  {
    hide Apply;
  }

  lemma {:induction false} ClashesOverwrite(run: seq<Envelope>)
    ensures Clashes(run) <==> Overwritten(run) != {}
  {
    hide Apply, Clash;
    if run != [] {
      ClashesOverwrite(run[..|run| - 1]);
      RunsAreTidy(run[..|run| - 1]);
      ClashIsStored(RunState(run[..|run| - 1]), run[|run| - 1]);
    }
  }

  lemma ClashIsStored(s: State, e: Envelope)
    requires Tidy(s.history, s.applied)
    ensures ClashesNow(s, e) ==> e.event.report.id in s.history.eventIds
  {
    hide Apply;
  }

  lemma {:induction false} UnclashingRunsAreSound(run: seq<Envelope>)
    requires !Clashes(run)
    ensures Sound(RunState(run), Completions(run))
  {
    hide Apply, Sound, ClashesNow;
    if run == [] {
      EmptyIsSound();
    } else {
      var init, e := run[..|run| - 1], run[|run| - 1];
      UnclashingRunsAreSound(init);
      if Apply(RunState(init), e).Ok? {
        StepIsSound(RunState(init), Completions(init), e);
      }
    }
  }

  /**
   Each completion is exactly one of active or deleted if and only if no step of the run clashed, and then
   the newest completion is still active.
   */
  lemma RunsConserveReports(run: seq<Envelope>)
    ensures Conserved(RunState(run).history, Completions(run)) <==> !Clashes(run)
    ensures !Clashes(run) ==> NewestKept(RunState(run).history, Completions(run))
  {
    hide Apply, Numbered, NewestKept, Clashes;
    EveryCompletionIsAccountedFor(run);
    ClashesOverwrite(run);
    if Clashes(run) {
      var id :| id in Overwritten(run);
      assert id in Completions(run) && id !in Completions(run) - Overwritten(run);
    } else {
      UnclashingRunsAreSound(run);
    }
  }

  /** Ids outside the history namespace of their own event never clash. */
  lemma {:induction false} OrdinaryRunsDoNotClash(run: seq<Envelope>)
    requires OrdinaryIds(run)
    ensures !Clashes(run)
  {
    hide Apply, Clash;
    if run != [] {
      var init, e := run[..|run| - 1], run[|run| - 1];
      assert run == init + [e];
      OrdinaryRunsDoNotClash(init);
      if e.event.ReportCompleted? {
        NoClashOutsideHistory(RunState(init).history, e.eventId, e.event.report.id);
      }
    }
  }

  // A log that loses a report.

  /** A completion of a report on no goals, signed by the founding device at the founding epoch. */
  predicate CompletesAfter(founding: Envelope, e: Envelope) {
    && e.event.ReportCompleted? && e.event.report.goalVersionIds == []
    && e.signatureValid && e.workspaceId == founding.workspaceId && e.epoch == founding.epoch
    && e.deviceId == founding.deviceId && e.actorId == founding.actorId
    && e.signingPublicKey == founding.signingPublicKey
  }

  predicate Founds(e: Envelope) {
    e.event.WorkspaceCreated? && e.signatureValid && e.workspaceId != "" && FoundingAllowed(EMPTY.workspace, e)
  }

  /**
   Two completions under the history key of the second: the first is afterwards neither active nor
   deleted, although both applied.
   */
  lemma ClashHappens(founding: Envelope, one: Envelope, two: Envelope)
    requires Founds(founding) && CompletesAfter(founding, one) && CompletesAfter(founding, two)
    requires founding.eventId != one.eventId && founding.eventId != two.eventId && one.eventId != two.eventId
    requires one.event.report.id == HISTORY_PREFIX + two.eventId == two.event.report.id
    ensures var run := [founding, one, two];
            && Clashes(run)
            && Completions(run) == map[one.eventId := one.event.report, two.eventId := two.event.report]
            && Lost(RunState(run), Completions(run), one.eventId)
            && two.eventId in RunState(run).history.eventIds.Values
  {
    var s := Apply(EMPTY, founding).value;
    var h1 := WithReport(EMPTY.history, one.eventId, one.event.report);
    var h2 := WithReport(h1, two.eventId, two.event.report);
    CompletionApplies(founding, s, one);
    var s1 := Apply(s, one).value;
    CompletionApplies(founding, s1, two);
    assert [founding][..0] == [] && [founding, one][..1] == [founding] && [founding, one, two][..2] == [founding, one];
    assert RunState([founding]) == s;
    assert RunState([founding, one]) == s1;
    assert h1.reports == map[one.event.report.id := one.event.report];
    assert h1.eventIds == map[one.event.report.id := one.eventId] && h1.eventIds[one.event.report.id] == one.eventId;
    assert h1.reports.Keys - {two.event.report.id} == {};
    assert h2.eventIds == map[two.event.report.id := two.eventId];
    assert h2.eventIds[two.event.report.id] == two.eventId;
    assert Completions([founding]) == map[];
    assert Completions([founding, one]) == map[one.eventId := one.event.report];
  }

  lemma CompletionApplies(founding: Envelope, s: State, e: Envelope)
    requires Founds(founding) && CompletesAfter(founding, e) && e.eventId !in s.applied
    requires s.workspace == Founded(EMPTY.workspace, founding) && s.goals == EMPTY.goals
    ensures Apply(s, e)
         == Ok(s.(history := WithReport(s.history, e.eventId, e.event.report), applied := s.applied + {e.eventId}))
  {
    hide WithReport;
    assert s.goals.approved.Values == {};
  }
}
