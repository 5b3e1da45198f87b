/**
 Provider snapshot directories shared by concurrent processes. A parent lock serializes creation and
 cleanup, and every live snapshot holds a lock on the lease file inside its directory.

 The protocol is a state machine over the steps of any number of actors, one actor for each
 `ProviderSnapshotWorkspace` handle. A crash releases every lock and leaves directories behind.
 */
module Leases {
  type Actor = nat
  type Snapshot = nat

  /** A cleanup pass: what is left to visit, what was stale when it began, and what follows it. */
  datatype Pass = Pass(todo: set<Snapshot>, stale: set<Snapshot>, create: bool)

  /** Where an actor is. From `Scanning` to `Leased` and in `Leaving` it holds the parent lock. */
  datatype Place =
    | Outside
    | Scanning(pass: Pass)
    | Probing(pass: Pass, d: Snapshot)   // the lease file is open
    | Probed(pass: Pass, d: Snapshot)    // and its lock was free: taken
    | Condemned(pass: Pass, d: Snapshot) // released again, removal follows
    | Scanned(pass: Pass)
    | Made(d: Snapshot)                  // the directory exists, without a lease file
    | Filed(d: Snapshot)                 // the lease file exists, not locked yet
    | Leased(d: Snapshot)
    | Leaving
    | Holding(d: Snapshot)
    | Released(d: Snapshot)              // dropping: lease released, removal follows

  /** `dirs` maps a directory to whether it has a lease file, `lease` a directory to who locks that file. */
  datatype State = State(
    parent: set<Actor>,
    dirs: map<Snapshot, bool>,
    lease: map<Snapshot, Actor>,
    used: set<Snapshot>,
    at: map<Actor, Place>)

  const START := State({}, map[], map[], {}, map[])

  function At(s: State, a: Actor): Place {
    if a in s.at then s.at[a] else Outside
  }

  function Stale(s: State): set<Snapshot> {
    set d | d in s.dirs && s.dirs[d] && d !in s.lease
  }

  predicate InSection(p: Place) {
    !p.Outside? && !p.Holding? && !p.Released?
  }

  predicate InPass(p: Place) {
    p.Scanning? || p.Probing? || p.Probed? || p.Condemned? || p.Scanned?
  }

  predicate Probes(p: Place) {
    p.Probing? || p.Probed? || p.Condemned?
  }

  predicate Owns(p: Place, d: Snapshot) {
    (p.Made? || p.Filed? || p.Leased? || p.Holding?) && p.d == d
  }

  predicate Locks(p: Place, d: Snapshot) {
    (p.Probed? || p.Leased? || p.Holding?) && p.d == d
  }

  /** The directory a place may remove later. */
  predicate Claims(p: Place, d: Snapshot) {
    Owns(p, d) || (p.Released? && p.d == d)
  }

  datatype Step =
    | Enter(create: bool) // take the parent lock and list the directory
    | Skip(d: Snapshot)   // gone, or without a lease file
    | Open(d: Snapshot)
    | TryLock
    | Unlock
    | Remove
    | EndPass
    | Make(d: Snapshot)
    | WriteLease
    | Lock
    | Leave
    | Fail                // any error while the parent lock is held
    | DropLease
    | DropDirectory
    | Crash

  predicate Enabled(s: State, a: Actor, step: Step) {
    var p := At(s, a);
    match step
    case Enter(_) => p.Outside? && s.parent == {}
    case Skip(d) => p.Scanning? && d in p.pass.todo && (d !in s.dirs || !s.dirs[d])
    case Open(d) => p.Scanning? && d in p.pass.todo && d in s.dirs && s.dirs[d]
    case TryLock => p.Probing?
    case Unlock => p.Probed?
    case Remove => p.Condemned?
    case EndPass => p.Scanning? && p.pass.todo == {}
    case Make(d) => p.Scanned? && p.pass.create && d !in s.used
    case WriteLease => p.Made?
    case Lock => p.Filed? && p.d !in s.lease
    case Leave => p.Leased? || p.Leaving? || (p.Scanned? && !p.pass.create)
    case Fail => InSection(p) && !p.Leaving?
    case DropLease => p.Holding?
    case DropDirectory => p.Released?
    case Crash => true
  }

  function Moved(s: State, a: Actor, p: Place): State {
    s.(at := s.at[a := p])
  }

  function Dropped(s: State, a: Actor, d: Snapshot, p: Place): State {
    Moved(s, a, p).(dirs := s.dirs - {d})
  }

  function Visited(p: Pass, d: Snapshot): Pass {
    p.(todo := p.todo - {d})
  }

  /** The locks `a` holds are released. */
  function Unlocked(s: State, a: Actor): State {
    s.(parent := s.parent - {a}, lease := map d | d in s.lease && s.lease[d] != a :: s.lease[d])
  }

  function Next(s: State, a: Actor, step: Step): State
    requires Enabled(s, a, step)
  {
    var p := At(s, a);
    match step
    case Enter(create) => Moved(s, a, Scanning(Pass(s.dirs.Keys, Stale(s), create))).(parent := {a})
    case Skip(d) => Moved(s, a, Scanning(Visited(p.pass, d)))
    case Open(d) => Moved(s, a, Probing(Visited(p.pass, d), d))
    case TryLock =>
      if p.d in s.lease then Moved(s, a, Scanning(p.pass))
      else Moved(s, a, Probed(p.pass, p.d)).(lease := s.lease[p.d := a])
    case Unlock => Moved(s, a, Condemned(p.pass, p.d)).(lease := s.lease - {p.d})
    case Remove => Dropped(s, a, p.d, Scanning(p.pass))
    case EndPass => Moved(s, a, Scanned(p.pass))
    case Make(d) => Moved(s, a, Made(d)).(dirs := s.dirs[d := false], used := s.used + {d})
    case WriteLease => Moved(s, a, Filed(p.d)).(dirs := s.dirs[p.d := true])
    case Lock => Moved(s, a, Leased(p.d)).(lease := s.lease[p.d := a])
    case Leave => Moved(s, a, if p.Leased? then Holding(p.d) else Outside).(parent := {})
    case Fail =>
      var t := if p.Probed? || p.Leased? then s.(lease := s.lease - {p.d}) else s;
      if p.Made? || p.Filed? || p.Leased? then Dropped(t, a, p.d, Leaving) else Moved(t, a, Leaving)
    case DropLease => Moved(s, a, Released(p.d)).(lease := s.lease - {p.d})
    case DropDirectory => Dropped(s, a, p.d, Outside)
    case Crash => Unlocked(Moved(s, a, Outside), a)
  }

  lemma OthersStay(s: State, a: Actor, step: Step)
    requires Enabled(s, a, step)
    ensures forall b :: b != a ==> At(Next(s, a, step), b) == At(s, b)
  {
  }

  // The invariant.

  /** The parent lock is held by exactly the one actor inside the section. */
  ghost predicate OneInside(s: State) {
    && (forall a :: InSection(At(s, a)) <==> a in s.parent)
    && forall a, b :: a in s.parent && b in s.parent ==> a == b
  }

  ghost predicate LeasesAgree(s: State) {
    && (forall d :: d in s.lease ==> Locks(At(s, s.lease[d]), d))
    && forall a, d {:trigger Locks(At(s, a), d)} :: Locks(At(s, a), d) ==> d in s.lease && s.lease[d] == a
  }

  /** An owner's directory exists, with a lease file from the moment one was written. */
  ghost predicate OwnersKeepTheirs(s: State) {
    forall a, d :: Owns(At(s, a), d) ==> d in s.dirs && (s.dirs[d] <==> !At(s, a).Made?)
  }

  ghost predicate ClaimsAreUnique(s: State) {
    && (forall a, b, d :: Claims(At(s, a), d) && Claims(At(s, b), d) ==> a == b)
    && (forall a, d :: Claims(At(s, a), d) ==> d in s.used)
    && forall d :: d in s.dirs ==> d in s.used
  }

  ghost predicate CondemnedIsUnowned(s: State) {
    forall a, b :: At(s, a).Condemned? ==> !Owns(At(s, b), At(s, a).d)
  }

  /** What a pass still owes: each stale directory that remains is yet to be visited, or being visited. */
  ghost predicate Owed(s: State, p: Place, d: Snapshot)
    requires InPass(p) && d in s.dirs
  {
    && s.dirs[d]
    && (d in s.lease ==> p.Probed? && p.d == d)
    && !p.Scanned?
    && (d in p.pass.todo || (!p.Scanning? && p.d == d))
  }

  ghost predicate PassesOwe(s: State) {
    forall a, d :: InPass(At(s, a)) && d in At(s, a).pass.stale ==> d in s.used && (d in s.dirs ==> Owed(s, At(s, a), d))
  }

  /** Only directories with a lease file are ever probed. */
  ghost predicate ProbesSeeLeases(s: State) {
    forall a :: Probes(At(s, a)) ==> At(s, a).d in s.used && (At(s, a).d in s.dirs ==> s.dirs[At(s, a).d])
  }

  ghost predicate Inv(s: State) {
    && OneInside(s) && LeasesAgree(s) && OwnersKeepTheirs(s) && ClaimsAreUnique(s) && CondemnedIsUnowned(s)
    && PassesOwe(s) && ProbesSeeLeases(s)
  }

  lemma OneStaysInside(s: State, a: Actor, step: Step)
    requires OneInside(s) && Enabled(s, a, step)
    ensures OneInside(Next(s, a, step))
  {
    OthersStay(s, a, step);
  }

  lemma OneLocker(s: State, a: Actor, b: Actor, d: Snapshot)
    requires LeasesAgree(s)
    ensures Locks(At(s, a), d) && Locks(At(s, b), d) ==> a == b
    ensures Locks(At(s, b), d) ==> d in s.lease && s.lease[d] == b
  {
  }

  lemma LockersStayListed(s: State, a: Actor, step: Step)
    requires LeasesAgree(s) && Enabled(s, a, step)
    ensures forall b, d :: Locks(At(Next(s, a, step), b), d) ==>
              d in Next(s, a, step).lease && Next(s, a, step).lease[d] == b
  {
    var t := Next(s, a, step);
    forall b, d | Locks(At(t, b), d) ensures d in t.lease && t.lease[d] == b {
      if b == a {
        OwnLockStaysListed(s, a, step, d);
      } else {
        OtherLockStaysListed(s, a, step, b, d);
      }
    }
  }

  lemma OwnLockStaysListed(s: State, a: Actor, step: Step, d: Snapshot)
    requires LeasesAgree(s) && Enabled(s, a, step) && Locks(At(Next(s, a, step), a), d)
    ensures d in Next(s, a, step).lease && Next(s, a, step).lease[d] == a
  {
    OneLocker(s, a, a, d);
  }

  lemma OtherLockStaysListed(s: State, a: Actor, step: Step, b: Actor, d: Snapshot)
    requires LeasesAgree(s) && Enabled(s, a, step) && b != a && Locks(At(Next(s, a, step), b), d)
    ensures d in Next(s, a, step).lease && Next(s, a, step).lease[d] == b
  {
    OthersStay(s, a, step);
    assert Locks(At(s, b), d);
    OneLocker(s, a, b, d);
    hide LeasesAgree;
  }

  lemma ListedStayLockers(s: State, a: Actor, step: Step)
    requires LeasesAgree(s) && Enabled(s, a, step)
    ensures forall d :: d in Next(s, a, step).lease ==> Locks(At(Next(s, a, step), Next(s, a, step).lease[d]), d)
  {
    OthersStay(s, a, step);
    var t := Next(s, a, step);
    forall d | d in t.lease ensures Locks(At(t, t.lease[d]), d) {
      if t.lease[d] != a { assert d in s.lease && s.lease[d] == t.lease[d]; }
    }
  }

  lemma LeasesStayAgreed(s: State, a: Actor, step: Step)
    requires LeasesAgree(s) && Enabled(s, a, step)
    ensures LeasesAgree(Next(s, a, step))
  {
    LockersStayListed(s, a, step);
    ListedStayLockers(s, a, step);
    hide Enabled, Next, Locks;
  }

  lemma OwnersStay(s: State, a: Actor, step: Step)
    requires ClaimsAreUnique(s) && OwnersKeepTheirs(s) && CondemnedIsUnowned(s) && Enabled(s, a, step)
    ensures OwnersKeepTheirs(Next(s, a, step))
  {
    OthersStay(s, a, step);
    var t := Next(s, a, step);
    forall b, d | Owns(At(t, b), d) ensures d in t.dirs && (t.dirs[d] <==> !At(t, b).Made?) {
      if b != a {
        assert Owns(At(s, b), d) && Claims(At(s, b), d);
        assert !Claims(At(s, a), d);
      }
    }
  }

  lemma ClaimsStayUnique(s: State, a: Actor, step: Step)
    requires ClaimsAreUnique(s) && Enabled(s, a, step)
    ensures ClaimsAreUnique(Next(s, a, step))
  {
    OthersStay(s, a, step);
    var t := Next(s, a, step);
    forall b, d | Claims(At(t, b), d) ensures d in t.used && (b != a ==> !Claims(At(t, a), d)) {
      assert step.Make? || Claims(At(s, b), d);
    }
  }

  lemma LockExcludesOwner(s: State, a: Actor, b: Actor)
    requires OneInside(s) && LeasesAgree(s) && At(s, a).Probed?
    ensures !Owns(At(s, b), At(s, a).d)
  {
    var d := At(s, a).d;
    assert InSection(At(s, a)) && Locks(At(s, a), d);
    assert s.lease[d] == a;
    assert Locks(At(s, b), d) ==> s.lease[d] == b;
    assert InSection(At(s, b)) ==> a == b;
  }

  lemma CondemnedStaysUnowned(s: State, a: Actor, step: Step)
    requires OneInside(s) && LeasesAgree(s) && CondemnedIsUnowned(s) && Enabled(s, a, step)
    ensures CondemnedIsUnowned(Next(s, a, step))
  {
    OthersStay(s, a, step);
    var t := Next(s, a, step);
    forall c, b | At(t, c).Condemned? ensures !Owns(At(t, b), At(t, c).d) {
      assert InSection(At(s, c));
      if step.Unlock? && c == a {
        LockExcludesOwner(s, c, b);
      }
    }
  }

  lemma PassesStillOwe(s: State, a: Actor, step: Step)
    requires Inv(s) && Enabled(s, a, step)
    ensures PassesOwe(Next(s, a, step))
  {
    hide CondemnedIsUnowned, OwnersKeepTheirs;
    OthersStay(s, a, step);
    var t := Next(s, a, step);
    forall c, d | InPass(At(t, c)) && d in At(t, c).pass.stale
      ensures d in t.used && (d in t.dirs ==> Owed(t, At(t, c), d))
    {
      assert InSection(At(s, c)) || step.Enter?;
    }
  }

  lemma ProbesStillSeeLeases(s: State, a: Actor, step: Step)
    requires ProbesSeeLeases(s) && ClaimsAreUnique(s) && Enabled(s, a, step)
    ensures ProbesSeeLeases(Next(s, a, step))
  {
    OthersStay(s, a, step);
  }

  lemma StepKeepsInv(s: State, a: Actor, step: Step)
    requires Inv(s) && Enabled(s, a, step)
    ensures Inv(Next(s, a, step))
  {
    hide OneInside, LeasesAgree, OwnersKeepTheirs, ClaimsAreUnique, CondemnedIsUnowned, PassesOwe, ProbesSeeLeases;
    OneStaysInside(s, a, step);
    LeasesStayAgreed(s, a, step);
    OwnersStay(s, a, step);
    ClaimsStayUnique(s, a, step);
    CondemnedStaysUnowned(s, a, step);
    PassesStillOwe(s, a, step);
    ProbesStillSeeLeases(s, a, step);
  }

  // Runs.

  /** A run is a sequence of states; every step is by some actor. */
  ghost predicate Stepped(s: State, t: State) {
    exists a, step :: Enabled(s, a, step) && Next(s, a, step) == t
  }

  ghost predicate StepAt(run: seq<State>, i: nat)
    requires 0 < i < |run|
  {
    Stepped(run[i - 1], run[i])
  }

  ghost predicate IsRun(run: seq<State>) {
    run != [] && run[0] == START && forall i :: 0 < i < |run| ==> StepAt(run, i)
  }

  lemma {:induction false} EveryStateIsSound(run: seq<State>, i: nat)
    requires IsRun(run) && i < |run|
    ensures Inv(run[i])
  {
    if i > 0 {
      hide Inv;
      EveryStateIsSound(run, i - 1);
      assert StepAt(run, i);
      var a, step :| Enabled(run[i - 1], a, step) && Next(run[i - 1], a, step) == run[i];
      StepKeepsInv(run[i - 1], a, step);
    }
  }

  /**
   Lease safety: in every run, however the actors interleave and crash, a snapshot whose owner holds its
   lease exists, with its lease file, and no other actor locks or owns it.
   */
  lemma HeldSnapshotsAreNeverRemoved(run: seq<State>, i: nat, a: Actor)
    requires IsRun(run) && i < |run| && At(run[i], a).Holding?
    ensures var d := At(run[i], a).d;
            && d in run[i].dirs && run[i].dirs[d]
            && d in run[i].lease && run[i].lease[d] == a
            && (forall b :: b != a ==> !Claims(At(run[i], b), d) && !Locks(At(run[i], b), d))
            && (forall b :: At(run[i], b).Condemned? ==> At(run[i], b).d != d)
  {
    EveryStateIsSound(run, i);
    var d := At(run[i], a).d;
    assert Owns(At(run[i], a), d) && Locks(At(run[i], a), d) && Claims(At(run[i], a), d);
  }

  /** A snapshot in the making is as safe as a finished one: the parent lock covers the gap. */
  lemma UnfinishedSnapshotsAreNeverRemoved(run: seq<State>, i: nat, a: Actor, d: Snapshot)
    requires IsRun(run) && i < |run| && Owns(At(run[i], a), d)
    ensures d in run[i].dirs
    ensures forall b :: b != a ==> !InPass(At(run[i], b)) || At(run[i], a).Holding?
  {
    EveryStateIsSound(run, i);
  }

  /** A directory that is gone stays gone: names are not reused. */
  lemma {:induction false} RemovedForGood(run: seq<State>, i: nat, j: nat, d: Snapshot)
    requires IsRun(run) && i <= j < |run| && d in run[i].used && d !in run[i].dirs
    ensures d in run[j].used && d !in run[j].dirs
  {
    if i < j {
      hide Next, Enabled;
      RemovedForGood(run, i, j - 1, d);
      assert StepAt(run, j);
      var a, step :| Enabled(run[j - 1], a, step) && Next(run[j - 1], a, step) == run[j];
      EveryStateIsSound(run, j - 1);
      StepRemovesForGood(run[j - 1], a, step, d);
    }
  }

  lemma StepRemovesForGood(s: State, a: Actor, step: Step, d: Snapshot)
    requires OwnersKeepTheirs(s) && Enabled(s, a, step) && d in s.used && d !in s.dirs
    ensures d in Next(s, a, step).used && d !in Next(s, a, step).dirs
  {
    assert step.WriteLease? ==> Owns(At(s, a), At(s, a).d);
  }

  /** While an actor stays in one pass, the pass remembers what was stale when it began. */
  lemma {:induction false} PassRemembers(run: seq<State>, i: nat, j: nat, a: Actor)
    requires IsRun(run) && i <= j < |run|
    requires forall k :: i <= k <= j ==> InPass(At(run[k], a))
    ensures InPass(At(run[i], a)) && InPass(At(run[j], a))
    ensures At(run[j], a).pass.stale == At(run[i], a).pass.stale
  {
    if i < j {
      hide Next, Enabled;
      PassRemembers(run, i, j - 1, a);
      assert StepAt(run, j);
      var b, step :| Enabled(run[j - 1], b, step) && Next(run[j - 1], b, step) == run[j];
      StepRemembers(run[j - 1], b, step, a);
    }
  }

  lemma StepRemembers(s: State, b: Actor, step: Step, a: Actor)
    requires Enabled(s, b, step) && InPass(At(s, a)) && InPass(At(Next(s, b, step), a))
    ensures At(Next(s, b, step), a).pass.stale == At(s, a).pass.stale
  {
    OthersStay(s, b, step);
  }

  /**
   Recovery: a pass that begins at state `i` and has completed at state `j` leaves none of the
   directories whose lease file was unheld when it began, now or later.
   */
  lemma CompletedPassRemovesStale(run: seq<State>, i: nat, j: nat, k: nat, a: Actor, create: bool)
    requires IsRun(run) && i < j <= k < |run|
    requires Enabled(run[i], a, Enter(create)) && run[i + 1] == Next(run[i], a, Enter(create))
    requires forall m :: i < m <= j ==> InPass(At(run[m], a))
    requires At(run[j], a).Scanned?
    ensures forall d :: d in Stale(run[i]) ==> d !in run[j].dirs && d !in run[k].dirs
  {
    PassRemembers(run, i + 1, j, a);
    EveryStateIsSound(run, j);
    forall d | d in Stale(run[i]) ensures d !in run[j].dirs && d !in run[k].dirs {
      assert d in At(run[j], a).pass.stale;
      RemovedForGood(run, j, k, d);
    }
  }

  ghost predicate Leaseless(s: State, d: Snapshot) {
    d in s.dirs && !s.dirs[d] && forall a :: !Claims(At(s, a), d)
  }

  lemma StepSkipsLeaseless(s: State, a: Actor, step: Step, d: Snapshot)
    requires ProbesSeeLeases(s) && ClaimsAreUnique(s) && Enabled(s, a, step) && Leaseless(s, d)
    ensures Leaseless(Next(s, a, step), d)
  {
    OthersStay(s, a, step);
    assert !Claims(At(s, a), d);
  }

  /**
   A directory whose creator crashed before writing the lease file is skipped by every later pass: it is
   never mistaken for debris, and never collected.
   */
  lemma {:induction false} LeaselessDirectoriesAreSkipped(run: seq<State>, i: nat, j: nat, d: Snapshot)
    requires IsRun(run) && i <= j < |run| && Leaseless(run[i], d)
    ensures Leaseless(run[j], d)
  {
    if i < j {
      hide Leaseless, Next, Enabled;
      LeaselessDirectoriesAreSkipped(run, i, j - 1, d);
      assert StepAt(run, j);
      var a, step :| Enabled(run[j - 1], a, step) && Next(run[j - 1], a, step) == run[j];
      EveryStateIsSound(run, j - 1);
      StepSkipsLeaseless(run[j - 1], a, step, d);
    }
  }

  // What dropping, failing and crashing leave behind.

  /** A completed drop leaves no directory, then or later; neither does a creation that fails. */
  lemma DroppedLeavesNothing(run: seq<State>, i: nat, j: nat, a: Actor, d: Snapshot)
    requires IsRun(run) && i < j < |run|
    requires || (At(run[i], a) == Released(d) && run[i + 1] == Next(run[i], a, DropDirectory))
             || (At(run[i], a) in {Made(d), Filed(d), Leased(d)} && run[i + 1] == Next(run[i], a, Fail))
    ensures d !in run[j].dirs && forall b :: !Owns(At(run[j], b), d)
  {
    EveryStateIsSound(run, i);
    assert Claims(At(run[i], a), d);
    RemovedForGood(run, i + 1, j, d);
    EveryStateIsSound(run, j);
  }

  /** Releasing a lease, by a drop or by a crash, makes the directory stale: the next pass takes it. */
  lemma ReleasedIsStale(run: seq<State>, i: nat, a: Actor)
    requires IsRun(run) && i < |run| && At(run[i], a).Holding?
    ensures At(run[i], a).d in Stale(Next(run[i], a, DropLease))
    ensures At(run[i], a).d in Stale(Next(run[i], a, Crash))
  {
    EveryStateIsSound(run, i);
    var d := At(run[i], a).d;
    assert Owns(At(run[i], a), d) && Locks(At(run[i], a), d);
  }

  /** How much of the section is left. */
  function Rank(p: Place): nat {
    match p
    case Scanning(pass) => 4 * |pass.todo| + 6
    case Probing(pass, _) => 4 * |pass.todo| + 9
    case Probed(pass, _) => 4 * |pass.todo| + 8
    case Condemned(pass, _) => 4 * |pass.todo| + 7
    case Scanned(_) => 5
    case Made(_) => 4
    case Filed(_) => 3
    case Leased(_) => 2
    case Leaving => 1
    case _ => 0
  }

  lemma AboveAll(used: set<Snapshot>) returns (d: Snapshot)
    ensures forall x :: x in used ==> x < d
    decreases |used|
  {
    if used == {} {
      d := 0;
    } else {
      var x: Snapshot :| x in used;
      var y := AboveAll(used - {x});
      assert forall z :: z in used ==> z == x || z in used - {x};
      d := if x < y then y else x + 1;
    }
  }

  lemma FiledMayLock(s: State, a: Actor)
    requires Inv(s) && At(s, a).Filed?
    ensures Enabled(s, a, Lock)
  {
    var d := At(s, a).d;
    if d in s.lease {
      var b := s.lease[d];
      assert Locks(At(s, b), d) && InSection(At(s, a)) && Claims(At(s, a), d);
      assert At(s, b).Holding? ==> Claims(At(s, b), d);
    }
  }

  /** No section hangs: its actor can always go on without failing, ... */
  lemma SectionsGoOn(run: seq<State>, i: nat, a: Actor) returns (step: Step)
    requires IsRun(run) && i < |run| && InSection(At(run[i], a))
    ensures Enabled(run[i], a, step) && !step.Fail? && !step.Crash?
  {
    EveryStateIsSound(run, i);
    var s, p := run[i], At(run[i], a);
    match p
    case Scanning(pass) =>
      if pass.todo == {} {
        step := EndPass;
      } else {
        var d: Snapshot :| d in pass.todo;
        step := if d in s.dirs && s.dirs[d] then Open(d) else Skip(d);
      }
    case Probing(_, _) => step := TryLock;
    case Probed(_, _) => step := Unlock;
    case Condemned(_, _) => step := Remove;
    case Scanned(pass) =>
      if pass.create {
        var d := AboveAll(s.used);
        step := Make(d);
      } else {
        step := Leave;
      }
    case Made(_) => step := WriteLease;
    case Filed(_) =>
      FiledMayLock(s, a);
      step := Lock;
    case Leased(_) => step := Leave;
    case Leaving => step := Leave;
  }

  lemma VisitedIsSmaller(pass: Pass, d: Snapshot)
    ensures d in pass.todo ==> |Visited(pass, d).todo| == |pass.todo| - 1
  {
  }

  lemma SectionEndsUnlocked(s: State, a: Actor, step: Step)
    requires InSection(At(s, a)) && Enabled(s, a, step) && !InSection(At(Next(s, a, step), a))
    ensures a !in Next(s, a, step).parent
  {
  }

  lemma ScanStepEnds(s: State, a: Actor, step: Step)
    requires At(s, a).Scanning? && Enabled(s, a, step) && !step.Fail? && !step.Crash?
    ensures Rank(At(Next(s, a, step), a)) < Rank(At(s, a))
  {
    if step.Skip? || step.Open? {
      VisitedIsSmaller(At(s, a).pass, step.d);
    }
    hide Visited;
  }

  lemma ProbeStepEnds(s: State, a: Actor, step: Step)
    requires Probes(At(s, a)) && Enabled(s, a, step) && !step.Fail? && !step.Crash?
    ensures Rank(At(Next(s, a, step), a)) < Rank(At(s, a))
  {
  }

  lemma OtherStepEnds(s: State, a: Actor, step: Step)
    requires InSection(At(s, a)) && Enabled(s, a, step)
    requires step.Fail? || step.Crash? || (!At(s, a).Scanning? && !Probes(At(s, a)))
    ensures Rank(At(Next(s, a, step), a)) < Rank(At(s, a))
  {
  }

  /** ... each of its steps brings it nearer to its end, where it releases the lock. */
  lemma SectionsEnd(s: State, a: Actor, step: Step)
    requires InSection(At(s, a)) && Enabled(s, a, step)
    ensures Rank(At(Next(s, a, step), a)) < Rank(At(s, a))
    ensures !InSection(At(Next(s, a, step), a)) ==> a !in Next(s, a, step).parent
  {
    hide Enabled, Next, Rank, InSection, Probes;
    if step.Fail? || step.Crash? || (!At(s, a).Scanning? && !Probes(At(s, a))) {
      OtherStepEnds(s, a, step);
    } else if At(s, a).Scanning? {
      ScanStepEnds(s, a, step);
    } else {
      ProbeStepEnds(s, a, step);
    }
    if !InSection(At(Next(s, a, step), a)) {
      SectionEndsUnlocked(s, a, step);
    }
  }

  /** Whoever is outside may enter as soon as nobody is inside. */
  lemma FreeSectionAdmits(run: seq<State>, i: nat, a: Actor, create: bool)
    requires IsRun(run) && i < |run| && At(run[i], a).Outside? && forall b :: !InSection(At(run[i], b))
    ensures Enabled(run[i], a, Enter(create))
  {
    EveryStateIsSound(run, i);
  }

  // A run in which all of this happens: actor 1 creates snapshot 7, holds it and crashes; actor 2 then
  // completes a pass that finds the directory stale and removes it.

  const CREATING := Pass({}, {}, true)
  const STARTED := Pass({7}, {7}, false)
  const VISITED := Pass({}, {7}, false)

  function Witness(i: nat): State {
    if i == 0 then START
    else if i == 1 then State({1}, map[], map[], {}, map[1 := Scanning(CREATING)])
    else if i == 2 then State({1}, map[], map[], {}, map[1 := Scanned(CREATING)])
    else if i == 3 then State({1}, map[7 := false], map[], {7}, map[1 := Made(7)])
    else if i == 4 then State({1}, map[7 := true], map[], {7}, map[1 := Filed(7)])
    else if i == 5 then State({1}, map[7 := true], map[7 := 1], {7}, map[1 := Leased(7)])
    else if i == 6 then State({}, map[7 := true], map[7 := 1], {7}, map[1 := Holding(7)])
    else if i == 7 then State({}, map[7 := true], map[], {7}, map[1 := Outside])
    else if i == 8 then State({2}, map[7 := true], map[], {7}, map[1 := Outside, 2 := Scanning(STARTED)])
    else if i == 9 then State({2}, map[7 := true], map[], {7}, map[1 := Outside, 2 := Probing(VISITED, 7)])
    else if i == 10 then State({2}, map[7 := true], map[7 := 2], {7}, map[1 := Outside, 2 := Probed(VISITED, 7)])
    else if i == 11 then State({2}, map[7 := true], map[], {7}, map[1 := Outside, 2 := Condemned(VISITED, 7)])
    else if i == 12 then State({2}, map[], map[], {7}, map[1 := Outside, 2 := Scanning(VISITED)])
    else State({2}, map[], map[], {7}, map[1 := Outside, 2 := Scanned(VISITED)])
  }

  lemma Goes(s: State, a: Actor, step: Step, t: State)
    requires Enabled(s, a, step)
    requires Next(s, a, step).parent == t.parent && Next(s, a, step).dirs == t.dirs
    requires Next(s, a, step).lease == t.lease && Next(s, a, step).used == t.used && Next(s, a, step).at == t.at
    ensures Stepped(s, t) && Next(s, a, step) == t
  {
    assert Next(s, a, step) == t;
  }

  lemma CreationSteps(i: nat)
    requires i < 7
    ensures Stepped(Witness(i), Witness(i + 1))
  {
    hide Stepped;
    var steps := [Enter(true), EndPass, Make(7), WriteLease, Lock, Leave, Crash];
    assert i == 0 ==> Stale(START) == {} && START.dirs.Keys == {};
    Goes(Witness(i), 1, steps[i], Witness(i + 1));
  }

  lemma CleanupSteps(i: nat)
    requires 7 <= i < 13
    ensures Stepped(Witness(i), Witness(i + 1))
  {
    hide Stepped;
    var steps := [Enter(false), Open(7), TryLock, Unlock, Remove, EndPass];
    assert i == 7 ==> Stale(Witness(7)) == {7} && Witness(7).dirs.Keys == {7};
    assert i == 8 ==> Visited(STARTED, 7).todo == {};
    Goes(Witness(i), 2, steps[i - 7], Witness(i + 1));
  }

  lemma WitnessRun() returns (run: seq<State>)
    ensures |run| == 14 && forall i :: 0 <= i < 14 ==> run[i] == Witness(i)
  {
    hide Witness;
    run := seq(14, i requires 0 <= i => Witness(i));
  }

  lemma CleanupHappens() returns (run: seq<State>)
    ensures IsRun(run) && |run| == 14
    ensures At(run[6], 1).Holding? && Stale(run[7]) == {7}
    ensures Enabled(run[7], 2, Enter(false)) && run[8] == Next(run[7], 2, Enter(false))
    ensures forall m :: 7 < m <= 13 ==> InPass(At(run[m], 2))
    ensures At(run[13], 2).Scanned? && 7 !in run[13].dirs
  {
    run := WitnessRun();
    assert Stale(Witness(7)) == {7} && Witness(7).dirs.Keys == {7};
    Goes(Witness(7), 2, Enter(false), Witness(8));
    forall i | 0 < i < |run| ensures StepAt(run, i) {
      hide Stepped, Witness;
      if i <= 7 { CreationSteps(i - 1); } else { CleanupSteps(i - 1); }
    }
  }
}
