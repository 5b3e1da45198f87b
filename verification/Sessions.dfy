/**
 Analysis sessions: files that a submission claims by renaming them, restores when it is rejected, and
 removes once its report is recorded.

 The protocol is a state machine over the steps of any number of concurrent actors: opening, claiming,
 rejecting, recording, dropping a claim, collecting expired files, and crashing between any two steps.
 */
module Sessions {
  // File names.

  const UUID_LENGTH := 36

  predicate AsciiAlphanumericOrDash(c: char) {
    'a' <= c <= 'z' || 'A' <= c <= 'Z' || '0' <= c <= '9' || c == '-'
  }

  /** The session ids that can address a file. */
  predicate Addressable(id: string) {
    id != "" && forall i :: 0 <= i < |id| ==> AsciiAlphanumericOrDash(id[i])
  }

  const CLAIMED_PREFIX := ".claimed-"
  const SUFFIX := ".json"

  function OriginalName(id: string): string {
    id + SUFFIX
  }

  function ClaimedName(id: string, uuid: string): string {
    CLAIMED_PREFIX + id + "-" + uuid + SUFFIX
  }

  /** No session id addresses a claimed file, and different sessions or claims have different files. */
  lemma NamesAreDistinct(a: string, b: string, u: string, v: string)
    requires Addressable(a) && |u| == UUID_LENGTH && |v| == UUID_LENGTH
    ensures OriginalName(a) != ClaimedName(b, u)
    ensures OriginalName(a) == OriginalName(b) ==> a == b
    ensures ClaimedName(a, u) == ClaimedName(b, v) ==> a == b && u == v
  {
    assert OriginalName(a)[0] == a[0] && ClaimedName(b, u)[0] == '.';
    if OriginalName(a) == OriginalName(b) {
      assert a == OriginalName(a)[..|a|] && b == OriginalName(b)[..|b|];
    }
    if ClaimedName(a, u) == ClaimedName(b, v) {
      SplitClaimedName(a, u);
      SplitClaimedName(b, v);
    }
  }

  lemma SplitClaimedName(id: string, u: string)
    requires |u| == UUID_LENGTH
    ensures var name := ClaimedName(id, u);
            var end := |name| - |SUFFIX|;
            && |CLAIMED_PREFIX| + 1 + UUID_LENGTH <= end <= |name|
            && id == name[|CLAIMED_PREFIX|..end - UUID_LENGTH - 1]
            && u == name[end - UUID_LENGTH..end]
  {
  }

  // The protocol, with files named by what they are.

  type Id = string
  type Actor = nat

  datatype Name = Original(id: Id) | Claimed(id: Id, uuid: nat)

  const SESSION_TTL := 24 * 60 * 60

  datatype Place =
    | Idle
    | Opening(id: Id)                // the session file is published, its start marker is not saved yet
    | Retracting(id: Id)             // the marker failed
    | Condemning(name: Name)         // read a file that has expired, removal follows
    | Checking(id: Id, uuid: nat)    // renamed to the claimed name
    | Expiring(id: Id, uuid: nat)    // found its own claim expired, removal follows
    | Submitting(id: Id, uuid: nat)
    | Dropping(id: Id, uuid: nat)    // rejected: about to look for the original name
    | Restoring(id: Id, uuid: nat)   // saw no file under the original name
    | Recorded(id: Id, uuid: nat)    // the report is in the log, the claim is not yet removed

  datatype State = State(
    files: set<Name>,
    expires: map<Id, nat>,
    clock: nat,
    uuids: set<nat>,
    recorded: multiset<Id>,
    retracted: set<Id>,
    abandoned: set<Id>,
    at: map<Actor, Place>)

  const START := State({}, map[], 0, {}, multiset{}, {}, {}, map[])

  function At(s: State, a: Actor): Place {
    if a in s.at then s.at[a] else Idle
  }

  /** The places where an actor may still record a report for a session, or give it back. */
  predicate Active(p: Place) {
    p.Checking? || p.Expiring? || p.Submitting? || p.Dropping? || p.Restoring?
  }

  predicate Submits(s: State, a: Actor, id: Id) {
    Active(At(s, a)) && At(s, a).id == id
  }

  predicate Expired(s: State, id: Id) {
    id in s.expires && s.expires[id] <= s.clock
  }

  datatype Step =
    | Open(id: Id)
    | MarkerSaved
    | MarkerFailed
    | Retract
    | Condemn(name: Name)
    | RemoveCondemned
    | Claim(id: Id, uuid: nat)
    | ReadFails
    | ReadExpired
    | RemoveExpired
    | ReadOk
    | Reject
    | Record(id: Id)
    | Commit(removed: bool)
    | LookForOriginal
    | Restore
    | Crash
    | Tick

  predicate Enabled(s: State, a: Actor, step: Step) {
    var p := At(s, a);
    match step
    case Open(id) => p.Idle? && Addressable(id) && id !in s.expires
    case MarkerSaved => p.Opening?
    case MarkerFailed => p.Opening?
    case Retract => p.Retracting?
    case Condemn(name) => p.Idle? && name in s.files && Expired(s, name.id)
    case RemoveCondemned => p.Condemning?
    case Claim(id, uuid) => p.Idle? && Addressable(id) && Original(id) in s.files && uuid !in s.uuids
    case ReadFails => p.Checking?
    case ReadExpired => p.Checking? && Claimed(p.id, p.uuid) in s.files && Expired(s, p.id)
    case RemoveExpired => p.Expiring?
    case ReadOk => p.Checking? && Claimed(p.id, p.uuid) in s.files && !Expired(s, p.id)
    case Reject => p.Submitting?
    case Record(id) => p.Submitting? && p.id == id
    case Commit(_) => p.Recorded?
    case LookForOriginal => p.Dropping?
    case Restore => p.Restoring?
    case Crash => true
    case Tick => true
  }

  function Moved(s: State, a: Actor, p: Place): State {
    s.(at := s.at[a := p])
  }

  function Next(s: State, a: Actor, step: Step): State
    requires Enabled(s, a, step)
  {
    var p := At(s, a);
    match step
    case Open(id) =>
      Moved(s, a, Opening(id)).(files := s.files + {Original(id)}, expires := s.expires[id := s.clock + SESSION_TTL])
    case MarkerSaved => Moved(s, a, Idle)
    case MarkerFailed => Moved(s, a, Retracting(p.id)).(retracted := s.retracted + {p.id})
    case Retract => Moved(s, a, Idle).(files := s.files - {Original(p.id)})
    case Condemn(name) => Moved(s, a, Condemning(name))
    case RemoveCondemned => Moved(s, a, Idle).(files := s.files - {p.name})
    case Claim(id, uuid) =>
      Moved(s, a, Checking(id, uuid))
        .(files := s.files - {Original(id)} + {Claimed(id, uuid)}, uuids := s.uuids + {uuid})
    case ReadFails => Moved(s, a, Dropping(p.id, p.uuid))
    case ReadExpired => Moved(s, a, Expiring(p.id, p.uuid))
    case RemoveExpired => Moved(s, a, Dropping(p.id, p.uuid)).(files := s.files - {Claimed(p.id, p.uuid)})
    case ReadOk => Moved(s, a, Submitting(p.id, p.uuid))
    case Reject => Moved(s, a, Dropping(p.id, p.uuid))
    case Record(id) => Moved(s, a, Recorded(id, p.uuid)).(recorded := s.recorded + multiset{id})
    case Commit(removed) =>
      Moved(s, a, Idle).(files := if removed then s.files - {Claimed(p.id, p.uuid)} else s.files)
    case LookForOriginal =>
      Moved(s, a, if Original(p.id) in s.files then Idle else Restoring(p.id, p.uuid))
    case Restore =>
      Moved(s, a, Idle)
        .(files := if Claimed(p.id, p.uuid) in s.files
                   then s.files - {Claimed(p.id, p.uuid)} + {Original(p.id)} else s.files)
    case Crash => Moved(s, a, Idle).(abandoned := if Active(p) then s.abandoned + {p.id} else s.abandoned)
    case Tick => s.(clock := s.clock + 1)
  }

  lemma OthersStay(s: State, a: Actor, step: Step)
    requires Enabled(s, a, step)
    ensures forall b :: b != a ==> At(Next(s, a, step), b) == At(s, b)
  {
  }

  // The invariant: one token per session.

  ghost predicate OneClaimant(s: State) {
    && (forall a, b :: Active(At(s, a)) && Active(At(s, b)) && At(s, a).id == At(s, b).id ==> a == b)
    && forall a :: Active(At(s, a)) ==> Original(At(s, a).id) !in s.files && At(s, a).id in s.expires
  }

  ghost predicate RecordedOnce(s: State) {
    && (forall id :: s.recorded[id] <= 1)
    && (forall a :: Active(At(s, a)) ==> s.recorded[At(s, a).id] == 0)
    && forall a :: At(s, a).Recorded? ==> s.recorded[At(s, a).id] == 1
  }

  ghost predicate OriginalsUnrecorded(s: State) {
    && (forall id :: Original(id) in s.files ==> s.recorded[id] == 0 && id in s.expires)
    && forall id :: id in s.recorded ==> id in s.expires
  }

  ghost predicate MayRemove(s: State, p: Place) {
    && (p.Condemning? ==> Expired(s, p.name.id))
    && (p.Expiring? ==> Expired(s, p.id))
    && (p.Retracting? ==> p.id in s.retracted)
  }

  ghost predicate OnlyExpiredCondemned(s: State) {
    forall a :: MayRemove(s, At(s, a))
  }

  ghost predicate OpenersAreListed(s: State) {
    forall a :: At(s, a).Opening? || At(s, a).Retracting? ==> At(s, a).id in s.expires
  }

  ghost predicate ClaimantsHaveFiles(s: State) {
    forall a :: Active(At(s, a)) && !Expired(s, At(s, a).id) ==> Claimed(At(s, a).id, At(s, a).uuid) in s.files
  }

  /** An opened session is still there, being submitted, recorded, expired, retracted, or lost in a crash. */
  ghost predicate Accounted(s: State, id: Id) {
    || Original(id) in s.files
    || (exists a :: Submits(s, a, id))
    || s.recorded[id] == 1
    || Expired(s, id) || id in s.retracted || id in s.abandoned
  }

  ghost predicate Conserved(s: State) {
    forall id :: id in s.expires ==> Addressable(id) && Accounted(s, id)
  }

  ghost predicate Inv(s: State) {
    && OneClaimant(s) && RecordedOnce(s) && OriginalsUnrecorded(s) && OnlyExpiredCondemned(s)
    && OpenersAreListed(s) && ClaimantsHaveFiles(s) && Conserved(s)
  }

  lemma OneClaimantStays(s: State, a: Actor, step: Step)
    requires OneClaimant(s) && OriginalsUnrecorded(s) && Enabled(s, a, step)
    ensures OneClaimant(Next(s, a, step))
  {
    OthersStay(s, a, step);
    var t := Next(s, a, step);
    forall b | Active(At(t, b))
      ensures Original(At(t, b).id) !in t.files && At(t, b).id in t.expires
      ensures b != a && Active(At(t, a)) ==> At(t, b).id != At(t, a).id
    {
      assert Active(At(s, b)) || step.Claim?;
      if b != a && Active(At(t, a)) {
        assert At(t, b) == At(s, b);
        assert Active(At(s, a)) ==> At(t, a).id == At(s, a).id;
        assert !Active(At(s, a)) ==> step.Claim? && At(t, a).id == step.id && Original(step.id) in s.files;
      }
    }
  }

  lemma RecordedOnceStays(s: State, a: Actor, step: Step)
    requires OneClaimant(s) && RecordedOnce(s) && OriginalsUnrecorded(s) && Enabled(s, a, step)
    ensures RecordedOnce(Next(s, a, step))
  {
    OthersStay(s, a, step);
  }

  lemma OriginalsStayUnrecorded(s: State, a: Actor, step: Step)
    requires OneClaimant(s) && RecordedOnce(s) && OriginalsUnrecorded(s) && Enabled(s, a, step)
    ensures OriginalsUnrecorded(Next(s, a, step))
  {
    var t := Next(s, a, step);
    forall id | Original(id) in t.files ensures t.recorded[id] == 0 && id in t.expires {
      assert Original(id) in s.files || step == Open(id) || (step.Restore? && At(s, a).id == id);
    }
  }

  lemma ExpiredStays(s: State, a: Actor, step: Step)
    requires Enabled(s, a, step)
    ensures forall id :: Expired(s, id) ==> Expired(Next(s, a, step), id)
  {
  }

  lemma MayStillRemove(s: State, a: Actor, step: Step, p: Place)
    requires Enabled(s, a, step)
    ensures MayRemove(s, p) ==> MayRemove(Next(s, a, step), p)
    ensures MayRemove(Next(s, a, step), At(Next(s, a, step), a)) || step.Tick?
  {
  }

  lemma OnlyExpiredStay(s: State, a: Actor, step: Step)
    requires OnlyExpiredCondemned(s) && Enabled(s, a, step)
    ensures OnlyExpiredCondemned(Next(s, a, step))
  {
    hide MayRemove, Enabled;
    OthersStay(s, a, step);
    var t := Next(s, a, step);
    forall b ensures MayRemove(t, At(t, b)) {
      MayStillRemove(s, a, step, At(s, b));
    }
  }

  lemma OpenersStayListed(s: State, a: Actor, step: Step)
    requires OpenersAreListed(s) && Enabled(s, a, step)
    ensures OpenersAreListed(Next(s, a, step))
  {
    OthersStay(s, a, step);
  }

  lemma ClaimantsKeepFiles(s: State, a: Actor, step: Step)
    requires Inv(s) && Enabled(s, a, step)
    ensures ClaimantsHaveFiles(Next(s, a, step))
  {
    hide Conserved, OpenersAreListed;
    OthersStay(s, a, step);
    ExpiredStays(s, a, step);
    var t := Next(s, a, step);
    forall b | Active(At(t, b)) && !Expired(t, At(t, b).id) ensures Claimed(At(t, b).id, At(t, b).uuid) in t.files {
      if b != a {
        assert Claimed(At(s, b).id, At(s, b).uuid) in s.files;
      }
    }
  }

  lemma ConservedStays(s: State, a: Actor, step: Step)
    requires Inv(s) && Enabled(s, a, step)
    ensures Conserved(Next(s, a, step))
  {
    OthersStay(s, a, step);
    var t := Next(s, a, step);
    forall id | id in t.expires ensures Addressable(id) && Accounted(t, id) {
      assert step == Open(id) || Accounted(s, id);
      if Submits(s, a, id) {
        assert Active(At(t, a)) ==> Submits(t, a, id);
      } else if b :| Submits(s, b, id) {
        assert Submits(t, b, id);
      } else if step.Claim? && step.id == id {
        assert Submits(t, a, id);
      }
    }
  }

  lemma StepKeepsInv(s: State, a: Actor, step: Step)
    requires Inv(s) && Enabled(s, a, step)
    ensures Inv(Next(s, a, step))
  {
    hide OneClaimant, RecordedOnce, OriginalsUnrecorded, OnlyExpiredCondemned, OpenersAreListed, ClaimantsHaveFiles,
         Conserved;
    OneClaimantStays(s, a, step);
    RecordedOnceStays(s, a, step);
    OriginalsStayUnrecorded(s, a, step);
    OnlyExpiredStay(s, a, step);
    OpenersStayListed(s, a, step);
    ClaimantsKeepFiles(s, a, step);
    ConservedStays(s, a, step);
  }

  // Runs.

  datatype Event = Event(actor: Actor, step: Step)

  function Reached(run: seq<Event>): (r: (State, bool)) {
    if run == [] then (START, true)
    else
      var (s, legal) := Reached(run[..|run| - 1]);
      var e := run[|run| - 1];
      if legal && Enabled(s, e.actor, e.step) then (Next(s, e.actor, e.step), true) else (s, false)
  }

  predicate Legal(run: seq<Event>) {
    Reached(run).1
  }

  function After(run: seq<Event>): State {
    Reached(run).0
  }

  lemma {:induction false} EveryStateIsSound(run: seq<Event>)
    requires Legal(run)
    ensures Inv(After(run))
  {
    if run != [] {
      hide Inv;
      var init, e := run[..|run| - 1], run[|run| - 1];
      EveryStateIsSound(init);
      StepKeepsInv(After(init), e.actor, e.step);
    }
  }

  /** How many submissions of `id` recorded a report. */
  function Records(run: seq<Event>, id: Id): nat {
    if run == [] then 0
    else Records(run[..|run| - 1], id) + if run[|run| - 1].step == Record(id) then 1 else 0
  }

  lemma {:induction false} RecordsAreCounted(run: seq<Event>, id: Id)
    requires Legal(run)
    ensures After(run).recorded[id] == Records(run, id)
  {
    if run != [] {
      RecordsAreCounted(run[..|run| - 1], id);
    }
  }

  /** A session is consumed at most once, over every interleaving. */
  lemma SessionRecordedAtMostOnce(run: seq<Event>, id: Id)
    requires Legal(run)
    ensures Records(run, id) <= 1
  {
    EveryStateIsSound(run);
    RecordsAreCounted(run, id);
  }

  /** No session is claimable, or claimed by another, while one submission holds it or after one recorded it. */
  lemma SessionIsExclusive(run: seq<Event>, id: Id)
    requires Legal(run)
    requires (exists a :: Submits(After(run), a, id)) || Records(run, id) > 0
    ensures forall b, uuid :: !Enabled(After(run), b, Claim(id, uuid))
    ensures forall a, b :: Submits(After(run), a, id) && Submits(After(run), b, id) ==> a == b
  {
    EveryStateIsSound(run);
    RecordsAreCounted(run, id);
  }

  /** The two steps of dropping a rejected claim, with any steps of other actors around and between them. */
  lemma RejectedSessionIsClaimableAgain(run: seq<Event>, a: Actor)
    requires Legal(run)
    requires Active(At(After(run), a)) && !Expired(After(run), At(After(run), a).id)
    ensures var s := After(run);
            var p := At(s, a);
            && (p.Dropping? ==> At(Next(s, a, LookForOriginal), a) == Restoring(p.id, p.uuid))
            && (p.Restoring? ==>
                  var t := Next(s, a, Restore);
                  && Original(p.id) in t.files && t.recorded[p.id] == 0
                  && (forall b :: !Submits(t, b, p.id))
                  && forall b, uuid :: At(t, b).Idle? && uuid !in t.uuids ==> Enabled(t, b, Claim(p.id, uuid)))
  {
    EveryStateIsSound(run);
    if At(After(run), a).Restoring? {
      OthersStay(After(run), a, Restore);
    }
  }

  /** Every session opened is accounted for, in exactly one of the ways that still admit a record. */
  lemma SessionsAreConserved(run: seq<Event>, id: Id)
    requires Legal(run) && id in After(run).expires
    ensures Accounted(After(run), id)
    ensures Original(id) in After(run).files ==> Records(run, id) == 0 && forall a :: !Submits(After(run), a, id)
  {
    EveryStateIsSound(run);
    RecordsAreCounted(run, id);
  }

  // What later steps cannot undo.

  /** No file can be claimed under the session's name, and nobody can put one back. */
  ghost predicate Gone(s: State, id: Id) {
    id in s.expires && Original(id) !in s.files && forall a :: !Submits(s, a, id)
  }

  lemma StepKeepsGone(s: State, a: Actor, step: Step, id: Id)
    requires Gone(s, id) && Enabled(s, a, step)
    ensures Gone(Next(s, a, step), id)
  {
    OthersStay(s, a, step);
    assert !Submits(s, a, id);
    var t := Next(s, a, step);
    forall b ensures !Submits(t, b, id) {
      assert !Submits(s, b, id);
    }
  }

  /** A session that is gone is never claimed again, in whatever happens next. */
  lemma {:induction false} GoneForGood(run: seq<Event>, more: seq<Event>, id: Id)
    requires Legal(run) && Gone(After(run), id) && Legal(run + more)
    ensures Gone(After(run + more), id)
    ensures forall a, uuid :: !Enabled(After(run + more), a, Claim(id, uuid))
    decreases |more|
  {
    if more == [] {
      assert run + more == run;
    } else {
      hide Gone;
      var all, n := run + more, |run + more| - 1;
      assert all[..n] == run + more[..|more| - 1];
      GoneForGood(run, more[..|more| - 1], id);
      StepKeepsGone(After(all[..n]), all[n].actor, all[n].step, id);
      GoneIsNotClaimable(After(all), id);
    }
  }

  lemma GoneIsNotClaimable(s: State, id: Id)
    requires Gone(s, id)
    ensures forall a, uuid :: !Enabled(s, a, Claim(id, uuid))
  {
  }

  /** The run and one more step of it. */
  predicate Extends(run: seq<Event>, a: Actor, step: Step) {
    Legal(run) && Enabled(After(run), a, step)
  }

  lemma Extended(run: seq<Event>, a: Actor, step: Step)
    requires Extends(run, a, step)
    ensures Legal(run + [Event(a, step)]) && After(run + [Event(a, step)]) == Next(After(run), a, step)
  {
    assert (run + [Event(a, step)])[..|run|] == run;
  }

  /** A retracted session is gone, unless a submission claimed it before the retraction. */
  lemma RetractedIsGone(run: seq<Event>, more: seq<Event>, a: Actor)
    requires Extends(run, a, Retract) && Legal(run + [Event(a, Retract)] + more)
    requires forall b :: !Submits(After(run), b, At(After(run), a).id)
    ensures forall b, uuid :: !Enabled(After(run + [Event(a, Retract)] + more), b, Claim(At(After(run), a).id, uuid))
  {
    hide Legal, After;
    var id, all := At(After(run), a).id, run + [Event(a, Retract)];
    Extended(run, a, Retract);
    EveryStateIsSound(run);
    OthersStay(After(run), a, Retract);
    forall b ensures !Submits(After(all), b, id) {
      assert !Submits(After(run), b, id);
    }
    GoneForGood(all, more, id);
  }

  /** So is a session whose report was recorded, and its file is removed with its claim. */
  lemma RecordedIsGone(run: seq<Event>, more: seq<Event>, a: Actor)
    requires Extends(run, a, Commit(true)) && Legal(run + [Event(a, Commit(true))] + more)
    ensures var p := At(After(run), a);
            && Claimed(p.id, p.uuid) !in After(run + [Event(a, Commit(true))]).files
            && forall b, uuid :: !Enabled(After(run + [Event(a, Commit(true))] + more), b, Claim(p.id, uuid))
  {
    hide Legal, After;
    var id, all := At(After(run), a).id, run + [Event(a, Commit(true))];
    Extended(run, a, Commit(true));
    EveryStateIsSound(run);
    OthersStay(After(run), a, Commit(true));
    forall b ensures !Submits(After(all), b, id) {
      assert !Submits(After(run), b, id);
    }
    GoneForGood(all, more, id);
  }

  /** An expired file that was condemned is removed, and so is an expired claim. */
  lemma ExpiredIsRemoved(run: seq<Event>, a: Actor)
    requires Legal(run)
    ensures var s, p := After(run), At(After(run), a);
            && (p.Condemning? ==> Expired(s, p.name.id) && p.name !in Next(s, a, RemoveCondemned).files)
            && (p.Expiring? ==> Expired(s, p.id) && Claimed(p.id, p.uuid) !in Next(s, a, RemoveExpired).files)
  {
    hide Legal, After;
    EveryStateIsSound(run);
  }

  // Time.

  /** A session that was opened can be claimed at once, by anyone, and expires a day later. */
  lemma OpenedIsClaimable(run: seq<Event>, a: Actor, id: Id)
    requires Extends(run, a, Open(id))
    ensures var t := After(run + [Event(a, Open(id))]);
            && t.expires[id] == After(run).clock + 86400 && !Expired(t, id)
            && forall b, uuid :: At(t, b).Idle? && uuid !in t.uuids ==> Enabled(t, b, Claim(id, uuid))
  {
    hide Legal, After;
    Extended(run, a, Open(id));
  }

  lemma StepKeepsExpiry(s: State, a: Actor, step: Step, id: Id)
    requires Enabled(s, a, step) && id in s.expires
    ensures var t := Next(s, a, step);
            id in t.expires && t.expires[id] == s.expires[id] && t.clock >= s.clock
  {
  }

  lemma {:induction false} ExpiryIsFixed(run: seq<Event>, more: seq<Event>, id: Id)
    requires Legal(run) && Legal(run + more) && id in After(run).expires
    ensures id in After(run + more).expires && After(run + more).expires[id] == After(run).expires[id]
    ensures After(run + more).clock >= After(run).clock
    decreases |more|
  {
    if more == [] {
      assert run + more == run;
    } else {
      var all, n := run + more, |run + more| - 1;
      assert all[..n] == run + more[..|more| - 1];
      hide Enabled, Next;
      ExpiryIsFixed(run, more[..|more| - 1], id);
      StepKeepsExpiry(After(all[..n]), all[n].actor, all[n].step, id);
    }
  }

  /** Once a day has passed since a session was opened, no submission of it starts any more. */
  lemma StaleSessionsAreNotSubmitted(run: seq<Event>, more: seq<Event>, a: Actor, b: Actor, id: Id)
    requires Extends(run, a, Open(id)) && Legal(run + [Event(a, Open(id))] + more)
    requires After(run + [Event(a, Open(id))] + more).clock >= After(run).clock + 86400
    requires At(After(run + [Event(a, Open(id))] + more), b).Checking?
    requires At(After(run + [Event(a, Open(id))] + more), b).id == id
    ensures !Enabled(After(run + [Event(a, Open(id))] + more), b, ReadOk)
  {
    hide Legal, After;
    Extended(run, a, Open(id));
    ExpiryIsFixed(run + [Event(a, Open(id))], more, id);
  }

  // Progress.

  function Rank(p: Place): nat {
    match p
    case Idle => 0
    case Opening(_) => 2
    case Retracting(_) => 1
    case Condemning(_) => 1
    case Checking(_, _) => 5
    case Expiring(_, _) => 3
    case Submitting(_, _) => 3
    case Dropping(_, _) => 2
    case Restoring(_, _) => 1
    case Recorded(_, _) => 1
  }

  /** No actor hangs: it can always go on, and each of its steps brings it nearer to being idle. */
  lemma ActorsGoOn(s: State, a: Actor) returns (step: Step)
    requires !At(s, a).Idle?
    ensures Enabled(s, a, step) && !step.Crash? && !step.Tick?
    ensures forall x: Step :: Enabled(s, a, x) && !x.Tick? ==> Rank(At(Next(s, a, x), a)) < Rank(At(s, a))
  {
    match At(s, a)
    case Opening(_) => step := MarkerSaved;
    case Retracting(_) => step := Retract;
    case Condemning(_) => step := RemoveCondemned;
    case Checking(_, _) => step := ReadFails;
    case Expiring(_, _) => step := RemoveExpired;
    case Submitting(_, _) => step := Reject;
    case Dropping(_, _) => step := LookForOriginal;
    case Restoring(_, _) => step := Restore;
    case Recorded(_, _) => step := Commit(true);
  }
}
