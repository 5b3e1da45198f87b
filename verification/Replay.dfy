/**
 Rebuilding a workspace from its log: sort by (lamport, event id, device id), then apply in order,
 skipping events of an abandoned epoch.
 */
module Replay {
  import opened Text
  import opened Ledger
  import opened Common
  import opened Projection
  import ReportHistory
  import GoalSets

  // The replay order.

  /** Strict order of the sort key. */
  predicate Before(a: Envelope, b: Envelope) {
    || a.lamport < b.lamport
    || (a.lamport == b.lamport
        && (Below(a.eventId, b.eventId) || (a.eventId == b.eventId && Below(a.deviceId, b.deviceId))))
  }

  predicate SameKey(a: Envelope, b: Envelope) {
    a.lamport == b.lamport && a.eventId == b.eventId && a.deviceId == b.deviceId
  }

  lemma BeforeTotal(a: Envelope, b: Envelope)
    ensures Before(a, b) || Before(b, a) || SameKey(a, b)
  {
    BelowTotal(a.eventId, b.eventId);
    BelowTotal(a.deviceId, b.deviceId);
  }

  lemma BeforeAsymmetric(a: Envelope, b: Envelope)
    requires Before(a, b)
    ensures !Before(b, a) && !SameKey(a, b)
  {
    BelowAsymmetric(a.eventId, b.eventId);
    BelowAsymmetric(a.deviceId, b.deviceId);
  }

  lemma BelowAsymmetric(a: string, b: string)
    ensures !(Below(a, b) && Below(b, a))
    ensures a == b ==> !Below(a, b)
  {
    BelowIrreflexive(a);
    if Below(a, b) && Below(b, a) { BelowTransitive(a, b, a); }
  }

  lemma BeforeTransitive(a: Envelope, b: Envelope, c: Envelope)
    requires Before(a, b) && Before(b, c)
    ensures Before(a, c)
  {
    if Below(a.eventId, b.eventId) && Below(b.eventId, c.eventId) {
      BelowTransitive(a.eventId, b.eventId, c.eventId);
    }
    if Below(a.deviceId, b.deviceId) && Below(b.deviceId, c.deviceId) {
      BelowTransitive(a.deviceId, b.deviceId, c.deviceId);
    }
  }

  /** `a` may stand before `b` in a sorted log. */
  predicate AtMost(a: Envelope, b: Envelope) {
    !Before(b, a)
  }

  lemma AtMostTransitive(a: Envelope, b: Envelope, c: Envelope)
    requires AtMost(a, b) && AtMost(b, c)
    ensures AtMost(a, c)
  {
    BeforeTotal(a, b);
    BeforeTotal(b, c);
    if Before(c, a) {
      if Before(a, b) {
        BeforeTransitive(c, a, b);
      } else if Before(b, c) {
        BeforeTransitive(b, c, a);
      }
    }
  }

  // A stable sort.

  function Insert(e: Envelope, log: seq<Envelope>): seq<Envelope> {
    if log == [] || AtMost(e, log[0]) then [e] + log else [log[0]] + Insert(e, log[1..])
  }

  function Sort(log: seq<Envelope>): seq<Envelope> {
    if log == [] then [] else Insert(log[0], Sort(log[1..]))
  }

  predicate Sorted(log: seq<Envelope>) {
    log == [] || (Sorted(log[1..]) && forall e :: e in log[1..] ==> AtMost(log[0], e))
  }

  lemma {:induction false} InsertSorts(e: Envelope, log: seq<Envelope>)
    requires Sorted(log)
    ensures Sorted(Insert(e, log))
    ensures forall x :: x in Insert(e, log) <==> x == e || x in log
  {
    if log == [] {
    } else if AtMost(e, log[0]) {
      assert ([e] + log)[1..] == log;
      forall x | x in log ensures AtMost(e, x) {
        if x != log[0] {
          assert x in log[1..];
          AtMostTransitive(e, log[0], x);
        }
      }
    } else {
      var rest := Insert(e, log[1..]);
      InsertSorts(e, log[1..]);
      assert ([log[0]] + rest)[1..] == rest;
      BeforeAsymmetric(log[0], e);
      assert log == [log[0]] + log[1..];
    }
  }

  lemma {:induction false} SortSorts(log: seq<Envelope>)
    ensures Sorted(Sort(log))
    ensures multiset(Sort(log)) == multiset(log)
    ensures forall x :: x in Sort(log) <==> x in log
  {
    if log != [] {
      SortSorts(log[1..]);
      InsertSorts(log[0], Sort(log[1..]));
    }
    SortKeepsAll(log);
    assert forall x :: x in Sort(log) <==> x in multiset(Sort(log));
  }

  lemma {:induction false} SortKeepsAll(log: seq<Envelope>)
    ensures multiset(Sort(log)) == multiset(log)
  {
    if log != [] {
      SortKeepsAll(log[1..]);
      InsertKeepsAll(log[0], Sort(log[1..]));
      assert log == [log[0]] + log[1..];
    }
  }

  lemma {:induction false} InsertKeepsAll(e: Envelope, log: seq<Envelope>)
    ensures multiset(Insert(e, log)) == multiset(log) + multiset{e}
  {
    if log != [] {
      InsertKeepsAll(e, log[1..]);
      assert log == [log[0]] + log[1..];
    }
  }

  /** The envelopes of the log that share the key of `e`, in order. */
  function WithKeyOf(e: Envelope, log: seq<Envelope>): seq<Envelope> {
    if log == [] then []
    else (if SameKey(log[0], e) then [log[0]] else []) + WithKeyOf(e, log[1..])
  }

  lemma {:induction false} InsertIsStable(x: Envelope, log: seq<Envelope>, e: Envelope)
    ensures WithKeyOf(e, Insert(x, log)) == (if SameKey(x, e) then [x] else []) + WithKeyOf(e, log)
  {
    if log == [] || AtMost(x, log[0]) {
      assert ([x] + log)[1..] == log;
    } else {
      InsertIsStable(x, log[1..], e);
      assert Insert(x, log)[1..] == Insert(x, log[1..]);
      BeforeAsymmetric(log[0], x);
    }
  }

  /** The sort is stable: envelopes with one key keep their order. */
  lemma {:induction false} SortIsStable(log: seq<Envelope>, e: Envelope)
    ensures WithKeyOf(e, Sort(log)) == WithKeyOf(e, log)
  {
    if log != [] {
      SortIsStable(log[1..], e);
      InsertIsStable(log[0], Sort(log[1..]), e);
    }
  }

  lemma {:induction false} SortedPairs(log: seq<Envelope>, i: nat, j: nat)
    requires Sorted(log) && i < j < |log|
    ensures AtMost(log[i], log[j])
  {
    if i > 0 {
      SortedPairs(log[1..], i - 1, j - 1);
    } else {
      assert log[j] in log[1..];
    }
  }

  /** Field by field: ascending Lamport time, then event id, then device. */
  lemma ReplayOrder(log: seq<Envelope>, i: nat, j: nat)
    requires i < j < |Sort(log)|
    ensures var a, b := Sort(log)[i], Sort(log)[j];
            && a.lamport <= b.lamport
            && (a.lamport == b.lamport ==> a.eventId == b.eventId || Below(a.eventId, b.eventId))
            && (a.lamport == b.lamport && a.eventId == b.eventId
                ==> a.deviceId == b.deviceId || Below(a.deviceId, b.deviceId))
  {
    SortSorts(log);
    SortedPairs(Sort(log), i, j);
    BelowTotal(Sort(log)[i].eventId, Sort(log)[j].eventId);
    BelowTotal(Sort(log)[i].deviceId, Sort(log)[j].deviceId);
  }

  // Replay.

  /** Stale events are skipped; any other failure stops the replay. */
  ghost function Replay(s: State, log: seq<Envelope>): Result<State>
    decreases |log|
  {
    if log == [] then Ok(s)
    else
      match Apply(s, log[0])
      case Ok(t) => Replay(t, log[1..])
      case Err(error) => if error == StaleEpoch then Replay(s, log[1..]) else Err(error)
  }

  ghost function Rebuild(log: seq<Envelope>): Result<State> {
    Replay(EMPTY, Sort(log))
  }

  /** The rebuild loop over the projection object. */
  method RebuildProjection(log: seq<Envelope>) returns (r: Result<()>, projection: WorkspaceProjection)
    ensures r.Ok? <==> Rebuild(log).Ok?
    ensures r.Ok? ==> projection.View() == Rebuild(log).value
    ensures r.Err? ==> r.error == Rebuild(log).error
  {
    hide Apply;
    var ordered := Sort(log);
    projection := new WorkspaceProjection();
    var i := 0;
    while i < |ordered|
      invariant 0 <= i <= |ordered|
      invariant Replay(EMPTY, ordered) == Replay(projection.View(), ordered[i..])
      invariant fresh(projection)
    {
      assert ordered[i..][1..] == ordered[i + 1..];
      var outcome := projection.ApplyEnvelope(ordered[i]);
      if outcome.Err? && outcome.error != StaleEpoch { return outcome, projection; }
      i := i + 1;
    }
    r := Ok(());
  }

  // Replay depends only on the set of envelopes.

  lemma ApplyTwice(s: State, e: Envelope)
    ensures Apply(s, e).Ok? ==> Apply(Apply(s, e).value, e) == Apply(s, e)
  {
    if Apply(s, e).Ok? {
      AppliedGrows(s, e);
    }
  }

  lemma AppliedGrows(s: State, e: Envelope)
    requires Apply(s, e).Ok?
    ensures Apply(s, e).value.applied == s.applied + {e.eventId}
  {
    hide Project, FoundingAllowed, Founded, Authorized;
    if e.eventId in s.applied {
      assert s.applied + {e.eventId} == s.applied;
    } else if !e.event.WorkspaceCreated? && Project(s, e).Ok? {
      ProjectKeepsApplied(s, e);
    }
  }

  lemma ProjectKeepsApplied(s: State, e: Envelope)
    requires !e.event.WorkspaceCreated? && Project(s, e).Ok?
    ensures Project(s, e).value.applied == s.applied
    ensures Project(s, e).value.workspace == s.workspace
  {
    hide GoalsAfter, HistoryAfter, ContentAfter;
  }

  function Dedup(log: seq<Envelope>): seq<Envelope> {
    if |log| < 2 then log
    else if log[0] == log[1] then Dedup(log[1..])
    else [log[0]] + Dedup(log[1..])
  }

  lemma {:induction false} ReplayIgnoresRepeats(s: State, log: seq<Envelope>)
    ensures Replay(s, log) == Replay(s, Dedup(log))
    decreases |log|
  {
    hide Apply;
    if |log| >= 2 {
      var e, rest := log[0], log[1..];
      ApplyTwice(s, e);
      match Apply(s, e) {
        case Ok(t) =>
          ReplayIgnoresRepeats(t, rest);
        case Err(error) =>
          ReplayIgnoresRepeats(s, rest);
      }
      if e == log[1] {
        assert Replay(s, log) == Replay(s, rest) by {
          if Apply(s, e).Ok? {
            assert Replay(Apply(s, e).value, rest) == Replay(Apply(s, e).value, rest[1..]);
          }
        }
        ReplayIgnoresRepeats(s, rest);
      } else {
        assert Dedup(log)[1..] == Dedup(rest);
      }
    }
  }

  predicate StrictlySorted(log: seq<Envelope>) {
    log == [] || (StrictlySorted(log[1..]) && forall e :: e in log[1..] ==> Before(log[0], e))
  }

  /** No two different envelopes of the log share a sort key. */
  ghost predicate Distinguishable(log: seq<Envelope>) {
    forall a, b :: a in log && b in log && SameKey(a, b) ==> a == b
  }

  lemma {:induction false} DedupIsStrict(log: seq<Envelope>)
    requires Sorted(log) && Distinguishable(log)
    ensures StrictlySorted(Dedup(log))
    ensures forall x :: x in Dedup(log) <==> x in log
  {
    if |log| >= 2 {
      var rest := log[1..];
      assert log == [log[0]] + rest;
      DedupIsStrict(rest);
      if log[0] != log[1] {
        assert Dedup(log)[1..] == Dedup(rest);
        forall x | x in rest ensures Before(log[0], x) {
          BeforeTotal(log[0], x);
          BeforeTotal(log[0], log[1]);
          if SameKey(log[0], x) {
            SameKeyBetween(log, x);
          }
        }
      }
    }
  }

  /** In a sorted log whose first two envelopes differ, the first one's key does not come back. */
  lemma SameKeyBetween(log: seq<Envelope>, x: Envelope)
    requires |log| >= 2 && Sorted(log) && Distinguishable(log) && log[0] != log[1]
    requires x in log[1..]
    ensures !SameKey(log[0], x)
  {
    assert log[1] in log[1..] && log[0] in log && x in log;
    BeforeTotal(log[0], log[1]);
    if x != log[1] {
      assert x in log[1..][1..];
      assert AtMost(log[1], x);
    }
  }

  lemma {:induction false} StrictlySortedUnique(a: seq<Envelope>, b: seq<Envelope>)
    requires StrictlySorted(a) && StrictlySorted(b)
    requires forall x :: x in a <==> x in b
    ensures a == b
    decreases |a|
  {
    if a == [] {
      if b != [] { HeadIsMember(b); }
    } else {
      assert a[0] in b;
      assert b != [] && b[0] in a;
      if a[0] != b[0] {
        assert a[0] in b[1..] && b[0] in a[1..];
        BeforeAsymmetric(a[0], b[0]);
      }
      HeadNotInTail(a);
      HeadNotInTail(b);
      assert a == [a[0]] + a[1..] && b == [b[0]] + b[1..];
      forall x ensures x in a[1..] <==> x in b[1..] {
        assert x in a <==> x == a[0] || x in a[1..];
        assert x in b <==> x == b[0] || x in b[1..];
      }
      StrictlySortedUnique(a[1..], b[1..]);
    }
  }

  lemma HeadIsMember(a: seq<Envelope>)
    requires a != []
    ensures a[0] in a
  {
  }

  lemma HeadNotInTail(a: seq<Envelope>)
    requires a != [] && StrictlySorted(a)
    ensures a[0] !in a[1..]
  {
    if a[0] in a[1..] { BeforeAsymmetric(a[0], a[0]); }
  }

  /**
   Any reordering and any repetition of the envelopes of a log rebuilds to the same state, or fails
   with the same error.
   */
  lemma ReplayDependsOnlyOnTheSet(a: seq<Envelope>, b: seq<Envelope>)
    requires Distinguishable(a)
    requires forall x :: x in a <==> x in b
    ensures Rebuild(a) == Rebuild(b)
  {
    SortSorts(a);
    SortSorts(b);
    DedupIsStrict(Sort(a));
    DedupIsStrict(Sort(b));
    StrictlySortedUnique(Dedup(Sort(a)), Dedup(Sort(b)));
    ReplayIgnoresRepeats(EMPTY, Sort(a));
    ReplayIgnoresRepeats(EMPTY, Sort(b));
  }

  // Events of an abandoned epoch.

  /** An event that belongs to another epoch than the one the log ended in. */
  predicate Abandoned(e: Envelope, epoch: nat) {
    !e.event.WorkspaceCreated? && e.epoch != epoch
  }

  function Without(log: seq<Envelope>, dropped: set<Envelope>): seq<Envelope> {
    if log == [] then []
    else if log[0] in dropped then Without(log[1..], dropped)
    else [log[0]] + Without(log[1..], dropped)
  }

  lemma ApplyKeepsEpoch(s: State, e: Envelope)
    requires Apply(s, e).Ok? && s.workspace.id != ""
    ensures Apply(s, e).value.workspace == s.workspace
  {
    hide Project;
    if e.eventId !in s.applied && !e.event.WorkspaceCreated? {
      ProjectKeepsApplied(s, e);
    }
  }

  lemma {:induction false} ReplayKeepsEpoch(s: State, log: seq<Envelope>)
    requires Replay(s, log).Ok? && s.workspace.id != ""
    ensures Replay(s, log).value.workspace == s.workspace
    decreases |log|
  {
    hide Apply;
    if log != [] {
      match Apply(s, log[0]) {
        case Ok(t) =>
          ApplyKeepsEpoch(s, log[0]);
          ReplayKeepsEpoch(t, log[1..]);
        case Err(_) =>
          ReplayKeepsEpoch(s, log[1..]);
      }
    }
  }

  /** Where it succeeds or is skipped, an abandoned event changes nothing. */
  lemma AbandonedEventIsSkipped(s: State, log: seq<Envelope>)
    requires log != [] && Replay(s, log).Ok? && Abandoned(log[0], Replay(s, log).value.workspace.epoch)
    ensures Replay(s, log) == Replay(s, log[1..])
  {
    var e := log[0];
    match Apply(s, e) {
      case Ok(t) =>
        if e.eventId !in s.applied {
          ApplyKeepsEpoch(s, e);
          ReplayKeepsEpoch(t, log[1..]);
        }
      case Err(_) =>
    }
  }

  lemma {:induction false} ReplayWithoutAbandoned(s: State, log: seq<Envelope>, dropped: set<Envelope>)
    requires Replay(s, log).Ok?
    requires forall e :: e in dropped ==> Abandoned(e, Replay(s, log).value.workspace.epoch)
    ensures Replay(s, Without(log, dropped)) == Replay(s, log)
    decreases |log|
  {
    hide Apply;
    if log != [] {
      if log[0] in dropped {
        AbandonedEventIsSkipped(s, log);
        ReplayWithoutAbandoned(s, log[1..], dropped);
      } else {
        assert Without(log, dropped)[1..] == Without(log[1..], dropped);
        match Apply(s, log[0]) {
          case Ok(t) => ReplayWithoutAbandoned(t, log[1..], dropped);
          case Err(_) => ReplayWithoutAbandoned(s, log[1..], dropped);
        }
      }
    }
  }

  lemma {:induction false} InsertWithout(e: Envelope, log: seq<Envelope>, dropped: set<Envelope>)
    requires Sorted(log)
    ensures Without(Insert(e, log), dropped)
            == if e in dropped then Without(log, dropped) else Insert(e, Without(log, dropped))
  {
    if log == [] {
      assert Without([e], dropped) == if e in dropped then [] else [e];
    } else if AtMost(e, log[0]) {
      assert ([e] + log)[1..] == log;
      WithoutKeepsBound(e, log, dropped);
    } else {
      InsertWithout(e, log[1..], dropped);
      assert Insert(e, log)[1..] == Insert(e, log[1..]);
      if log[0] !in dropped && e !in dropped {
        var kept := Without(log, dropped);
        assert kept[1..] == Without(log[1..], dropped);
      }
    }
  }

  lemma {:induction false} WithoutKeepsBound(e: Envelope, log: seq<Envelope>, dropped: set<Envelope>)
    requires Sorted(log) && log != [] && AtMost(e, log[0])
    ensures Without(log, dropped) != [] ==> AtMost(e, Without(log, dropped)[0])
  {
    if log[0] in dropped && |log| > 1 {
      assert log[1] in log[1..];
      AtMostTransitive(e, log[0], log[1]);
      WithoutKeepsBound(e, log[1..], dropped);
    }
  }

  lemma {:induction false} SortWithout(log: seq<Envelope>, dropped: set<Envelope>)
    ensures Sort(Without(log, dropped)) == Without(Sort(log), dropped)
  {
    if log != [] {
      SortWithout(log[1..], dropped);
      SortSorts(log[1..]);
      InsertWithout(log[0], Sort(log[1..]), dropped);
      if log[0] !in dropped {
        assert Without(log, dropped)[1..] == Without(log[1..], dropped);
      }
    }
  }

  /** Dropping any events of abandoned epochs from a log that rebuilds leaves the result unchanged. */
  lemma AbandonedEpochsDoNotMatter(log: seq<Envelope>, dropped: set<Envelope>)
    requires Rebuild(log).Ok?
    requires forall e :: e in dropped ==> Abandoned(e, Rebuild(log).value.workspace.epoch)
    ensures Rebuild(Without(log, dropped)) == Rebuild(log)
  {
    SortWithout(log, dropped);
    ReplayWithoutAbandoned(EMPTY, Sort(log), dropped);
  }

  // Appending one event.

  lemma {:induction false} InsertLast(e: Envelope, log: seq<Envelope>, last: Envelope)
    requires Before(e, last)
    ensures Insert(e, log + [last]) == Insert(e, log) + [last]
  {
    if log == [] {
      BeforeAsymmetric(e, last);
    } else if !AtMost(e, log[0]) {
      assert (log + [last])[1..] == log[1..] + [last];
      InsertLast(e, log[1..], last);
    } else {
      assert [e] + (log + [last]) == [e] + log + [last];
    }
  }

  lemma {:induction false} SortAppendsLatest(log: seq<Envelope>, last: Envelope)
    requires forall e :: e in log ==> Before(e, last)
    ensures Sort(log + [last]) == Sort(log) + [last]
  {
    if log == [] {
      assert [] + [last] == [last];
      assert [last][1..] == [];
    } else {
      assert (log + [last])[1..] == log[1..] + [last];
      SortAppendsLatest(log[1..], last);
      InsertLast(log[0], Sort(log[1..]), last);
    }
  }

  lemma {:induction false} ReplayAppend(s: State, log: seq<Envelope>, last: Envelope)
    requires Replay(s, log).Ok?
    ensures Replay(s, log + [last]) == Replay(Replay(s, log).value, [last])
    decreases |log|
  {
    hide Apply;
    if log == [] {
      assert [] + [last] == [last];
    } else {
      assert (log + [last])[1..] == log[1..] + [last];
      match Apply(s, log[0]) {
        case Ok(t) => ReplayAppend(t, log[1..], last);
        case Err(_) => ReplayAppend(s, log[1..], last);
      }
    }
  }

  /** Replaying a log extended by its newest event is one incremental step from the rebuilt state. */
  lemma RebuildIsIncremental(log: seq<Envelope>, last: Envelope)
    requires Rebuild(log).Ok? && Apply(Rebuild(log).value, last).Ok?
    requires forall e :: e in log ==> Before(e, last)
    ensures Rebuild(log + [last]) == Apply(Rebuild(log).value, last)
  {
    hide Apply;
    SortAppendsLatest(log, last);
    ReplayAppend(EMPTY, Sort(log), last);
    assert [last][1..] == [];
  }

  // Envelopes that share a sort key.

  lemma {:induction false} SortAppendsPair(log: seq<Envelope>, a: Envelope, b: Envelope)
    requires forall e :: e in log ==> Before(e, a) && Before(e, b)
    requires AtMost(a, b)
    ensures Sort(log + [a, b]) == Sort(log) + [a, b]
  {
    if log == [] {
      assert [a, b][1..] == [b] && [b][1..] == [];
      assert Sort([b]) == [b];
      assert [] + [a, b] == [a, b] == [a] + [b];
    } else {
      var rest := Sort(log[1..]);
      assert (log + [a, b])[1..] == log[1..] + [a, b];
      SortAppendsPair(log[1..], a, b);
      InsertLast(log[0], rest + [a], b);
      InsertLast(log[0], rest, a);
      assert rest + [a, b] == rest + [a] + [b];
      assert Insert(log[0], rest) + [a] + [b] == Insert(log[0], rest) + [a, b];
    }
  }

  /** Of two envelopes with the same key, the one that stands first in the log decides. */
  lemma FirstOfEqualsDecides(log: seq<Envelope>, a: Envelope, b: Envelope)
    requires Rebuild(log).Ok? && SameKey(a, b) && Apply(Rebuild(log).value, a).Ok?
    requires forall e :: e in log ==> Before(e, a)
    ensures Rebuild(log + [a, b]) == Apply(Rebuild(log).value, a)
  {
    hide Apply;
    var s := Rebuild(log).value;
    var t := Apply(s, a).value;
    BelowIrreflexive(a.eventId);
    BelowIrreflexive(a.deviceId);
    SortAppendsPair(log, a, b);
    assert Sort(log) + [a, b] == Sort(log) + [a] + [b];
    ReplayAppend(EMPTY, Sort(log), a);
    assert [a][1..] == [] && [b][1..] == [];
    ReplayAppend(EMPTY, Sort(log) + [a], b);
    assert Apply(t, b) == Ok(t) by {
      AppliedGrows(s, a);
      AppliedIsSkipped(t, b);
    }
  }

  lemma AppliedIsSkipped(s: State, e: Envelope)
    requires e.eventId in s.applied
    ensures Apply(s, e) == Ok(s)
  {
  }

  /**
   Exactly when the order of two envelopes with one key matters: for any log that rebuilds and any two
   such envelopes that sort after it and both apply, it matters iff they would lead to different states.
   */
  lemma SharedKeyOrderMattersIff(log: seq<Envelope>, a: Envelope, b: Envelope)
    requires Rebuild(log).Ok? && SameKey(a, b)
    requires Apply(Rebuild(log).value, a).Ok? && Apply(Rebuild(log).value, b).Ok?
    requires forall e :: e in log ==> Before(e, a)
    ensures Rebuild(log + [a, b]) == Rebuild(log + [b, a])
            <==> Apply(Rebuild(log).value, a) == Apply(Rebuild(log).value, b)
  {
    hide Apply;
    FirstOfEqualsDecides(log, a, b);
    FirstOfEqualsDecides(log, b, a);
  }

  /** For instance: two founding events with the same key and different names. */
  lemma SharedKeyMakesOrderMatter(a: Envelope, b: Envelope)
    requires SameKey(a, b) && a.signatureValid && b.signatureValid
    requires a.event.WorkspaceCreated? && FoundingAllowed(EMPTY.workspace, a)
    requires b.event.WorkspaceCreated? && FoundingAllowed(EMPTY.workspace, b)
    requires a.event.name != b.event.name
    ensures Rebuild([a, b]).Ok? && Rebuild([b, a]).Ok?
    ensures Rebuild([a, b]) != Rebuild([b, a])
  {
    assert Rebuild([]) == Ok(EMPTY);
    assert [] + [a, b] == [a, b] && [] + [b, a] == [b, a];
    FirstOfEqualsDecides([], a, b);
    FirstOfEqualsDecides([], b, a);
    SharedKeyOrderMattersIff([], a, b);
  }

  // What holds over every run holds for every rebuilt workspace.

  lemma {:induction false} ReplayIsARun(run: seq<Envelope>, log: seq<Envelope>)
    requires Replay(ReportHistory.RunState(run), log).Ok?
    ensures Replay(ReportHistory.RunState(run), log).value == ReportHistory.RunState(run + log)
    decreases |log|
  {
    hide Apply;
    if log == [] {
      assert run + log == run;
    } else {
      assert (run + [log[0]])[..|run|] == run;
      assert run + [log[0]] + log[1..] == run + log;
      ReplayIsARun(run + [log[0]], log[1..]);
    }
  }

  /**
   A rebuilt workspace has lost no report exactly when its log did not clash, and then kept the newest one.
   Its numbering, the uniqueness of its event ids and its approvals are sound in any case.
   */
  lemma RebuiltWorkspaceIsSound(log: seq<Envelope>)
    requires Rebuild(log).Ok?
    ensures var s, all := Rebuild(log).value, ReportHistory.Completions(Sort(log));
            && (ReportHistory.Conserved(s.history, all) <==> !ReportHistory.Clashes(Sort(log)))
            && (!ReportHistory.Clashes(Sort(log)) ==> ReportHistory.NewestKept(s.history, all))
            && ReportHistory.Partitioned(s, all, ReportHistory.Overwritten(Sort(log)))
            && (Injective(s.history.ordinals) <==> |all| <= MAX_COMPLETIONS)
            && ReportHistory.Numbered(s.history, all)
            && ReportHistory.Tidy(s.history, s.applied)
            && GoalSets.GoalsSound(s.goals)
  {
    hide Apply, ReportHistory.Conserved, ReportHistory.Clashes, ReportHistory.Tidy, GoalSets.GoalsSound, Sort, Replay,
         ReportHistory.NewestKept, ReportHistory.Numbered, ReportHistory.Partitioned;
    assert [] + Sort(log) == Sort(log);
    ReplayFromNothing(log);
    ReportHistory.RunsConserveReports(Sort(log));
    ReportHistory.EveryCompletionIsAccountedFor(Sort(log));
    ReportHistory.RunsNumberCompletions(Sort(log));
    ReportHistory.RunOrdinalsAreUniqueIff(Sort(log));
    ReportHistory.RunsAreTidy(Sort(log));
    GoalSets.RunsKeepGoalsAndActions(Sort(log));
  }

  lemma ReplayFromNothing(log: seq<Envelope>)
    requires Rebuild(log).Ok?
    ensures Rebuild(log).value == ReportHistory.RunState(Sort(log))
  {
    hide Apply;
    assert [] + Sort(log) == Sort(log);
    ReplayIsARun([], Sort(log));
  }

  /** A log of three events, sorted as given, whose rebuild has lost the first report. */
  lemma RebuildLosesAReport(founding: Envelope, one: Envelope, two: Envelope)
    requires ReportHistory.Founds(founding) && ReportHistory.CompletesAfter(founding, one)
    requires ReportHistory.CompletesAfter(founding, two)
    requires founding.eventId != one.eventId && founding.eventId != two.eventId && one.eventId != two.eventId
    requires one.event.report.id == HISTORY_PREFIX + two.eventId == two.event.report.id
    requires Before(founding, one) && Before(one, two)
    ensures var log := [founding, one, two];
            && Rebuild(log).Ok? && one.eventId in ReportHistory.Completions(log)
            && one.eventId !in Rebuild(log).value.history.eventIds.Values
            && one.eventId !in Rebuild(log).value.history.deleted
  {
    var s := Apply(EMPTY, founding).value;
    assert Rebuild([]) == Ok(EMPTY);
    RebuildIsIncremental([], founding);
    assert [] + [founding] == [founding];
    ReportHistory.CompletionApplies(founding, s, one);
    RebuildIsIncremental([founding], one);
    assert [founding] + [one] == [founding, one];
    var s1 := Apply(s, one).value;
    ReportHistory.CompletionApplies(founding, s1, two);
    hide Apply, ReportHistory.Completions, ReportHistory.RunState;
    BeforeTransitive(founding, one, two);
    RebuildIsIncremental([founding, one], two);
    assert [founding, one] + [two] == [founding, one, two];
    ThreeSorted(founding, one, two);
    assert [] + [founding, one, two] == [founding, one, two];
    ReportHistory.ClashHappens(founding, one, two);
    RunOfLog([founding, one, two]);
  }

  lemma ThreeSorted(a: Envelope, b: Envelope, c: Envelope)
    requires Before(a, b) && Before(b, c)
    ensures Sort([a, b, c]) == [a, b, c]
  {
    BeforeTransitive(a, b, c);
    SortAppendsLatest([], a);
    SortAppendsLatest([a], b);
    SortAppendsLatest([a, b], c);
    assert [] + [a] == [a] && [a] + [b] == [a, b] && [a, b] + [c] == [a, b, c];
  }

  lemma RunOfLog(log: seq<Envelope>)
    requires Sort(log) == log && Rebuild(log).Ok?
    ensures Rebuild(log).value == ReportHistory.RunState(log)
  {
    assert [] + log == log;
    ReplayIsARun([], log);
  }
}
