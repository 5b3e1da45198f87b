/**
 Crash-safe replacement of the local state file: write a temporary sibling, rename it into place, and
 recover from whatever an interrupted run left behind.

 A directory is the state file and its sidecars. `StateDirectory.trace` records every state the
 directory goes through, so a crash at any moment leaves one of them.
 */
module LocalState {
  import opened Bytes
  import opened Common

  /** A file, tagged with the number of the save that wrote it. */
  datatype File = File(bytes: Bytes, origin: nat)

  /** A sidecar: a temporary file or a quarantined one, named by a time-ordered unique id. */
  datatype Name = Name(uuid: nat, temporary: bool)

  datatype Dir = Dir(main: Option<File>, side: map<Name, File>)

  const EMPTY := Dir(None, map[])

  /** `valid` is the test that a file opens and parses; sealed bytes pass it and their strict prefixes do not. */
  type Valid = Bytes -> bool

  predicate Sealed(valid: Valid, b: Bytes) {
    valid(b) && forall k :: 0 <= k < |b| ==> !valid(b[..k])
  }

  predicate MainValid(valid: Valid, d: Dir) {
    d.main.Some? && valid(d.main.value.bytes)
  }

  /** Candidates are tried in descending name order. */
  predicate Preferred(a: Name, b: Name) {
    a.uuid > b.uuid || (a.uuid == b.uuid && a.temporary && !b.temporary)
  }

  ghost predicate IsCandidate(valid: Valid, d: Dir, n: Name) {
    && n in d.side && valid(d.side[n].bytes)
    && forall m :: m in d.side && valid(d.side[m].bytes) && m != n ==> Preferred(n, m)
  }

  /** What the next successful load returns: the valid main file, else the preferred valid sidecar. */
  ghost predicate Survives(valid: Valid, d: Dir, f: Option<File>) {
    if MainValid(valid, d) then f == d.main
    else
      match f
      case None => forall n :: n in d.side ==> !valid(d.side[n].bytes)
      case Some(file) => exists n :: IsCandidate(valid, d, n) && d.side[n] == file
  }

  lemma SurvivorUnique(valid: Valid, d: Dir, f: Option<File>, g: Option<File>)
    requires Survives(valid, d, f) && Survives(valid, d, g)
    ensures f == g
  {
    if !MainValid(valid, d) && f.Some? && g.Some? {
      var n :| IsCandidate(valid, d, n) && d.side[n] == f.value;
      var m :| IsCandidate(valid, d, m) && d.side[m] == g.value;
    }
  }

  /** A valid main file, or else the newest valid sidecar; of two with one id, the temporary one. */
  lemma SurvivorIs(valid: Valid, d: Dir, f: Option<File>)
    requires Survives(valid, d, f)
    ensures d.main.Some? && valid(d.main.value.bytes) ==> f == d.main
    ensures f.None? ==> !(d.main.Some? && valid(d.main.value.bytes))
                        && forall n :: n in d.side ==> !valid(d.side[n].bytes)
    ensures f.Some? && f != d.main ==>
              exists n :: n in d.side && d.side[n] == f.value && valid(d.side[n].bytes)
                          && forall m :: m in d.side && valid(d.side[m].bytes) ==>
                               m.uuid < n.uuid || (m.uuid == n.uuid && (m.temporary ==> n.temporary))
  {
  }

  /** Every directory stands for some value, or for none. */
  lemma SurvivorExists(valid: Valid, d: Dir) returns (f: Option<File>)
    ensures Survives(valid, d, f)
  {
    if MainValid(valid, d) { return d.main; }
    var n := BestOf(valid, d, d.side.Keys);
    f := if n.None? then None else Some(d.side[n.value]);
  }

  lemma BestOf(valid: Valid, d: Dir, names: set<Name>) returns (best: Option<Name>)
    requires names <= d.side.Keys
    ensures best.None? ==> forall n :: n in names ==> !valid(d.side[n].bytes)
    ensures best.Some? ==> best.value in names && valid(d.side[best.value].bytes)
    ensures best.Some? ==>
              forall m :: m in names && valid(d.side[m].bytes) && m != best.value ==> Preferred(best.value, m)
    decreases |names|
  {
    if names == {} { return None; }
    var n :| n in names;
    best := BestOf(valid, d, names - {n});
    assert forall m :: m in names ==> m == n || m in names - {n};
    if valid(d.side[n].bytes) && (best.None? || Preferred(n, best.value)) {
      best := Some(n);
    }
  }

  // What an operation may leave behind, at any step.

  /** A save of `f` under temporary name `t`, interrupted anywhere: the main file is the old one or the new one. */
  ghost predicate SaveMayLeave(d: Dir, f: File, t: Name, x: Dir) {
    && (x.main == d.main || x.main == Some(f))
    && forall n :: n in x.side ==>
         (n in d.side && x.side[n] == d.side[n]) || (n == t && x.side[n].bytes <= f.bytes && x.side[n].origin == f.origin)
  }

  /** A recovery, interrupted anywhere: a valid main file stays, otherwise only the survivor can become main. */
  ghost predicate LoadMayLeave(valid: Valid, d: Dir, x: Dir) {
    && (forall f :: Survives(valid, d, f) ==> Survives(valid, x, f))
    && (MainValid(valid, d) ==> x.main == d.main)
    && (x.main.Some? ==> x.main == d.main || Survives(valid, d, x.main))
    && forall n :: n in x.side ==> (n in d.side && x.side[n] == d.side[n]) || Some(x.side[n]) == d.main
  }

  ghost predicate AllSave(trace: seq<Dir>, from: nat, d: Dir, f: File, t: Name) {
    forall i :: from <= i < |trace| ==> SaveMayLeave(d, f, t, trace[i])
  }

  ghost predicate AllLoad(trace: seq<Dir>, from: nat, valid: Valid, d: Dir) {
    forall i :: from <= i < |trace| ==> LoadMayLeave(valid, d, trace[i])
  }

  /** Cleaning only ever shrinks the sidecars. */
  ghost predicate Cleaning(d: Dir, x: Dir) {
    x.main == d.main && forall n :: n in x.side ==> n in d.side && x.side[n] == d.side[n]
  }

  ghost predicate AllCleaning(trace: seq<Dir>, from: nat, d: Dir) {
    forall i :: from <= i < |trace| ==> Cleaning(d, trace[i])
  }

  lemma CleaningKeepsValidMain(valid: Valid, d: Dir, x: Dir)
    requires Cleaning(d, x) && MainValid(valid, d)
    ensures LoadMayLeave(valid, d, x)
  {
  }

  class StateDirectory {
    var main: Option<File>
    var side: map<Name, File>
    ghost var trace: seq<Dir>

    ghost function View(): Dir
      reads this
    {
      Dir(main, side)
    }

    constructor ()
      ensures View() == EMPTY && trace == []
    {
      main, side, trace := None, map[], [];
    }

    method Remove(n: Name)
      modifies this
      ensures View() == Dir(old(main), old(side) - {n}) && trace == old(trace) + [View()]
    {
      side := side - {n};
      trace := trace + [Dir(main, side)];
    }

    method Write(n: Name, f: File)
      modifies this
      ensures View() == Dir(old(main), old(side)[n := f]) && trace == old(trace) + [View()]
    {
      side := side[n := f];
      trace := trace + [Dir(main, side)];
    }

    method RenameToMain(n: Name)
      requires n in side
      modifies this
      ensures View() == Dir(Some(old(side)[n]), old(side) - {n}) && trace == old(trace) + [View()]
    {
      main, side := Some(side[n]), side - {n};
      trace := trace + [Dir(main, side)];
    }

    method Quarantine(n: Name)
      requires main.Some?
      modifies this
      ensures View() == Dir(None, old(side)[n := old(main).value]) && trace == old(trace) + [View()]
    {
      main, side := None, side[n := main.value];
      trace := trace + [Dir(main, side)];
    }

    /** Removes sidecars one at a time, in any order. */
    method Cleanup(temporaryOnly: bool)
      modifies this
      ensures main == old(main)
      ensures side == map n | n in old(side) && temporaryOnly && !n.temporary :: old(side)[n]
      ensures old(trace) <= trace && AllCleaning(trace, |old(trace)|, old(View()))
    {
      var todo := set n | n in side && (temporaryOnly ==> n.temporary);
      while todo != {}
        invariant todo <= side.Keys && main == old(main)
        invariant forall n :: n in todo ==> (temporaryOnly ==> n.temporary)
        invariant forall n :: n in old(side) && n !in side ==> (temporaryOnly ==> n.temporary)
        invariant forall n :: n in side ==> n in old(side) && side[n] == old(side)[n]
        invariant forall n :: n in side && (temporaryOnly ==> n.temporary) ==> n in todo
        invariant old(trace) <= trace && AllCleaning(trace, |old(trace)|, old(View()))
        decreases todo
      {
        var n :| n in todo;
        Remove(n);
        todo := todo - {n};
      }
    }

    /** Creates the temporary file and writes its bytes; the write may stop after any byte. */
    method WriteTemporary(t: Name, f: File, ghost start: Dir, ghost from: nat)
      requires from <= |trace| && AllSave(trace, from, start, f, t) && SaveMayLeave(start, f, t, View())
      requires main == start.main
      modifies this
      ensures main == old(main) && side == old(side)[t := f]
      ensures old(trace) <= trace && AllSave(trace, from, start, f, t)
    {
      Write(t, File([], f.origin));
      var i := 0;
      while i < |f.bytes|
        invariant 0 <= i <= |f.bytes|
        invariant main == old(main) && side == old(side)[t := File(f.bytes[..i], f.origin)]
        invariant old(trace) <= trace && AllSave(trace, from, start, f, t)
      {
        i := i + 1;
        Write(t, File(f.bytes[..i], f.origin));
      }
      assert f.bytes[..i] == f.bytes;
    }

    /** Replaces the state file. Every state on the way is one that `SaveMayLeave` allows. */
    method Save(f: File, uuid: nat)
      requires Name(uuid, true) !in side && Name(uuid, false) !in side
      modifies this
      ensures main == Some(f)
      ensures forall n :: n in side ==> n in old(side) && side[n] == old(side)[n]
      ensures old(trace) <= trace && AllSave(trace, |old(trace)|, old(View()), f, Name(uuid, true))
    {
      var t := Name(uuid, true);
      Cleanup(true);
      WriteTemporary(t, f, old(View()), |old(trace)|);
      RenameToMain(t);
    }

    /** The first valid candidate in descending name order. */
    method FindCandidate(valid: Valid) returns (n: Option<Name>)
      ensures n.None? ==> forall m :: m in side ==> !valid(side[m].bytes)
      ensures n.Some? ==> n.value in side && IsCandidate(valid, View(), n.value)
    {
      var todo := side.Keys;
      n := None;
      while todo != {}
        invariant todo <= side.Keys
        invariant n.None? ==> forall m :: m in side && m !in todo ==> !valid(side[m].bytes)
        invariant n.Some? ==> n.value in side && n.value !in todo && valid(side[n.value].bytes)
        invariant n.Some? ==> forall m :: m in side && m !in todo && valid(side[m].bytes) && m != n.value
                                          ==> Preferred(n.value, m)
        decreases todo
      {
        var m :| m in todo;
        if valid(side[m].bytes) && (n.None? || Preferred(m, n.value)) {
          n := Some(m);
        }
        todo := todo - {m};
      }
    }

    /** Moves an unreadable main file aside and renames the candidate into its place. */
    method Promote(valid: Valid, n: Name, uuid: nat)
      requires !MainValid(valid, View()) && IsCandidate(valid, View(), n)
      requires Name(uuid, false) !in side
      modifies this
      ensures main == Some(old(side)[n])
      ensures LoadMayLeave(valid, old(View()), View())
      ensures old(trace) <= trace && AllLoad(trace, |old(trace)|, valid, old(View()))
    {
      hide LoadMayLeave, IsCandidate, MainValid;
      ghost var start := View();
      CandidateIsSidecar(valid, start, n);
      if main.Some? {
        Quarantine(Name(uuid, false));
        QuarantineKeepsSurvivor(valid, start, Name(uuid, false), n);
      }
      RenameToMain(n);
      PromotionKeepsSurvivor(valid, start, n, View());
    }

    /** Recovery. Whatever survives at the start survives at every step, and ends up as the main file. */
    method Recover(valid: Valid, uuid: nat) returns (ghost survivor: Option<File>)
      requires Name(uuid, true) !in side && Name(uuid, false) !in side
      modifies this
      ensures Survives(valid, old(View()), survivor)
      ensures survivor.Some? ==> main == survivor && side == map[]
      ensures survivor.None? ==> View() == old(View())
      ensures |trace| >= |old(trace)| && AllLoad(trace, |old(trace)|, valid, old(View()))
    {
      ghost var start := View();
      if main.Some? && valid(main.value.bytes) {
        survivor := main;
        Cleanup(false);
        forall i | |old(trace)| <= i < |trace| ensures LoadMayLeave(valid, start, trace[i]) {
          CleaningKeepsValidMain(valid, start, trace[i]);
        }
        return;
      }
      var candidate := FindCandidate(valid);
      if candidate.None? { return None; }
      var n := candidate.value;
      survivor := Some(side[n]);
      Promote(valid, n, uuid);
      ghost var promoted, middle, before := View(), |trace|, trace;
      Cleanup(false);
      forall i | |old(trace)| <= i < |trace| ensures LoadMayLeave(valid, start, trace[i]) {
        if i >= middle {
          CleaningAfterPromotion(valid, start, n, promoted, trace[i]);
        } else {
          assert trace[i] == before[i];
        }
      }
    }

    /** Loads the state: recovers, then returns the main file if it is valid. */
    method Load(valid: Valid, uuid: nat) returns (loaded: Option<File>)
      requires Name(uuid, true) !in side && Name(uuid, false) !in side
      modifies this
      ensures Survives(valid, old(View()), loaded)
      ensures loaded.Some? ==> View() == Dir(loaded, map[])
      ensures loaded.None? ==> View() == old(View())
      ensures |trace| >= |old(trace)| && AllLoad(trace, |old(trace)|, valid, old(View()))
    {
      ghost var survivor := Recover(valid, uuid);
      loaded := if main.Some? && valid(main.value.bytes) then main else None;
      SurvivorIsValid(valid, old(View()), survivor);
    }

    /**
     The load of the application: a file that is still legacy plaintext is replaced, after it was read,
     by its sealed form. Every directory on the way is one of a recovery, or of that one save.
     */
    method LoadMigrating(valid: Valid, encrypted: Bytes -> bool, seal: Bytes -> Bytes, uuid: nat, second: nat)
        returns (loaded: Option<File>)
      requires Name(uuid, true) !in side && Name(uuid, false) !in side
      modifies this
      ensures Survives(valid, old(View()), loaded)
      ensures loaded.None? ==> View() == old(View())
      ensures loaded.Some? && encrypted(loaded.value.bytes) ==> View() == Dir(loaded, map[])
      ensures loaded.Some? && !encrypted(loaded.value.bytes) ==>
                View() == Dir(Some(Resealed(loaded.value, seal)), map[])
      ensures |trace| >= |old(trace)|
              && AllMigrating(trace, |old(trace)|, valid, old(View()), loaded, seal, Name(second, true))
    {
      loaded := Load(valid, uuid);
      if loaded.Some? && !encrypted(loaded.value.bytes) {
        ghost var before := trace;
        assert View() == Dir(loaded, map[]);
        Save(Resealed(loaded.value, seal), second);
        assert side == map[];
        ghost var start, t := old(View()), Name(second, true);
        forall i | |old(trace)| <= i < |trace| ensures MigrationMayLeave(valid, start, loaded, seal, t, trace[i]) {
          hide LoadMayLeave, SaveMayLeave;
          if i < |before| {
            assert trace[i] == before[i];
          }
        }
      }
    }
  }

  /** The sealed form of a legacy file; it holds the value of the same save. */
  function Resealed(f: File, seal: Bytes -> Bytes): File {
    File(seal(f.bytes), f.origin)
  }

  /** A load that rewrites a legacy file, interrupted anywhere. */
  ghost predicate MigrationMayLeave(
      valid: Valid, d: Dir, loaded: Option<File>, seal: Bytes -> Bytes, t: Name, x: Dir)
  {
    || LoadMayLeave(valid, d, x)
    || (loaded.Some? && SaveMayLeave(Dir(loaded, map[]), Resealed(loaded.value, seal), t, x))
  }

  ghost predicate AllMigrating(
      trace: seq<Dir>, from: nat, valid: Valid, d: Dir, loaded: Option<File>, seal: Bytes -> Bytes, t: Name)
  {
    forall i :: from <= i < |trace| ==> MigrationMayLeave(valid, d, loaded, seal, t, trace[i])
  }

  /** Whatever it leaves, the next load returns the value read, in its old or in its sealed form. */
  lemma MigrationKeepsValue(
      valid: Valid, d: Dir, loaded: File, seal: Bytes -> Bytes, t: Name, x: Dir, f: Option<File>)
    requires Survives(valid, d, Some(loaded)) && valid(seal(loaded.bytes))
    requires MigrationMayLeave(valid, d, Some(loaded), seal, t, x) && Survives(valid, x, f)
    ensures f == Some(loaded) || f == Some(Resealed(loaded, seal))
  {
    SurvivorIsValid(valid, d, Some(loaded));
    if LoadMayLeave(valid, d, x) {
      SurvivorUnique(valid, x, f, Some(loaded));
    }
  }

  lemma SurvivorIsValid(valid: Valid, d: Dir, f: Option<File>)
    requires Survives(valid, d, f)
    ensures f.Some? ==> valid(f.value.bytes)
    ensures f.None? ==> !MainValid(valid, d)
  {
  }

  lemma CandidateIsSidecar(valid: Valid, d: Dir, n: Name)
    requires IsCandidate(valid, d, n)
    ensures n in d.side
  {
  }

  lemma QuarantineKeepsSurvivor(valid: Valid, d: Dir, q: Name, n: Name)
    requires !MainValid(valid, d) && d.main.Some? && q !in d.side && IsCandidate(valid, d, n)
    ensures var x := Dir(None, d.side[q := d.main.value]);
            IsCandidate(valid, x, n) && x.side[n] == d.side[n] && LoadMayLeave(valid, d, x)
  {
    var x := Dir(None, d.side[q := d.main.value]);
    assert IsCandidate(valid, x, n);
    forall f | Survives(valid, d, f) ensures Survives(valid, x, f) {
      assert Survives(valid, d, Some(d.side[n]));
      SurvivorUnique(valid, d, f, Some(d.side[n]));
    }
  }

  lemma PromotionKeepsSurvivor(valid: Valid, d: Dir, n: Name, x: Dir)
    requires !MainValid(valid, d) && IsCandidate(valid, d, n)
    requires x.main == Some(d.side[n])
    requires forall m :: m in x.side ==> (m in d.side && x.side[m] == d.side[m]) || Some(x.side[m]) == d.main
    ensures LoadMayLeave(valid, d, x)
  {
    assert Survives(valid, d, Some(d.side[n]));
    forall f | Survives(valid, d, f) ensures Survives(valid, x, f) {
      SurvivorUnique(valid, d, f, Some(d.side[n]));
    }
  }

  lemma CleaningAfterPromotion(valid: Valid, d: Dir, n: Name, promoted: Dir, x: Dir)
    requires !MainValid(valid, d) && IsCandidate(valid, d, n)
    requires promoted.main == Some(d.side[n]) && LoadMayLeave(valid, d, promoted) && Cleaning(promoted, x)
    ensures LoadMayLeave(valid, d, x)
  {
    PromotionKeepsSurvivor(valid, d, n, x);
  }

  // Interrupted recovery.

  lemma LoadKeepsSurvivor(valid: Valid, d: Dir, x: Dir, f: Option<File>)
    requires Survives(valid, d, f) && LoadMayLeave(valid, d, x)
    ensures Survives(valid, x, f)
  {
  }

  /** Recoveries that each start from what the interrupted one before them left. */
  ghost predicate Restarts(valid: Valid, d: Dir, left: seq<Dir>)
    decreases |left|
  {
    left == [] || (LoadMayLeave(valid, d, left[0]) && Restarts(valid, left[0], left[1..]))
  }

  /** Recovery interrupted at any step, any number of times, and run again yields the same value. */
  lemma {:induction false} RecoveryIsRestartable(valid: Valid, d: Dir, left: seq<Dir>, f: Option<File>)
    requires Survives(valid, d, f) && Restarts(valid, d, left)
    ensures Survives(valid, if left == [] then d else left[|left| - 1], f)
    decreases |left|
  {
    hide Survives, LoadMayLeave;
    if left != [] {
      LoadKeepsSurvivor(valid, d, left[0], f);
      RecoveryIsRestartable(valid, left[0], left[1..], f);
    }
  }

  // Runs of saves, loads and crashes.

  /** One thing that happened, with the directory it left. */
  datatype Happening =
    | SaveDone(bytes: Bytes, temporary: Name, left: Dir)
    | SaveDied(bytes: Bytes, temporary: Name, left: Dir)
    | LoadDone(loaded: Option<File>, left: Dir)
    | LoadDied(left: Dir)

  /**
   The directory, the bytes of every save begun, the newest save known to the caller (acknowledged or
   loaded), and the saves that died before their rename while a valid main file existed.
   */
  datatype Run = Run(dir: Dir, saved: seq<Bytes>, known: Option<nat>, dead: set<nat>)

  const START := Run(EMPTY, [], None, {})

  ghost predicate Allowed(valid: Valid, r: Run, h: Happening) {
    match h
    case SaveDone(b, t, x) =>
      && Sealed(valid, b)
      && SaveMayLeave(r.dir, File(b, |r.saved|), t, x)
      && x.main == Some(File(b, |r.saved|))
    case SaveDied(b, t, x) =>
      Sealed(valid, b) && SaveMayLeave(r.dir, File(b, |r.saved|), t, x)
    case LoadDone(f, x) =>
      && Survives(valid, r.dir, f)
      && (f.Some? ==> x == Dir(f, map[]))
      && (f.None? ==> x == r.dir)
    case LoadDied(x) => LoadMayLeave(valid, r.dir, x)
  }

  function After(valid: Valid, r: Run, h: Happening): Run {
    match h
    case SaveDone(b, _, x) => Run(x, r.saved + [b], Some(|r.saved|), r.dead)
    case SaveDied(b, _, x) =>
      var renamed := x.main == Some(File(b, |r.saved|));
      Run(x, r.saved + [b], r.known, if MainValid(valid, r.dir) && !renamed then r.dead + {|r.saved|} else r.dead)
    case LoadDone(f, x) => Run(x, r.saved, if f.Some? then Some(f.value.origin) else r.known, r.dead)
    case LoadDied(x) => Run(x, r.saved, r.known, r.dead)
  }

  /** A file holds a prefix of what its save wrote, and all of it when it is valid. */
  predicate Traced(valid: Valid, saved: seq<Bytes>, f: File) {
    f.origin < |saved| && f.bytes <= saved[f.origin] && (valid(f.bytes) ==> f.bytes == saved[f.origin])
  }

  /**
   The main file is valid and no older than what the caller knows, and it is not the work of a dead
   save; a save can only be dead once there is a main file; every file holds what some save wrote.
   */
  ghost predicate Linear(valid: Valid, r: Run) {
    && (r.dir.main.Some? ==> MainValid(valid, r.dir) && Traced(valid, r.saved, r.dir.main.value)
                             && r.dir.main.value.origin !in r.dead)
    && (r.known.Some? ==> r.dir.main.Some? && r.dir.main.value.origin >= r.known.value)
    && (r.dead != {} ==> r.dir.main.Some?)
    && (forall i :: i in r.dead ==> i < |r.saved|)
    && forall n :: n in r.dir.side ==> Traced(valid, r.saved, r.dir.side[n])
  }

  lemma TracedIsKnown(valid: Valid, saved: seq<Bytes>, f: File)
    requires Traced(valid, saved, f)
    ensures f.origin < |saved|
  {
  }

  lemma TracedGrows(valid: Valid, saved: seq<Bytes>, b: Bytes, f: File)
    requires Traced(valid, saved, f)
    ensures Traced(valid, saved + [b], f)
  {
  }

  lemma NewFilesAreTraced(valid: Valid, saved: seq<Bytes>, b: Bytes, f: File)
    requires Sealed(valid, b) && f.bytes <= b && f.origin == |saved|
    ensures Traced(valid, saved + [b], f)
  {
    assert f.bytes == b[..|f.bytes|];
  }

  lemma SavesStayTraced(valid: Valid, r: Run, b: Bytes, t: Name, x: Dir)
    requires Linear(valid, r) && Sealed(valid, b) && SaveMayLeave(r.dir, File(b, |r.saved|), t, x)
    ensures x.main.Some? ==> Traced(valid, r.saved + [b], x.main.value)
    ensures forall n :: n in x.side ==> Traced(valid, r.saved + [b], x.side[n])
  {
    hide Sealed, Traced;
    if x.main == Some(File(b, |r.saved|)) {
      NewFilesAreTraced(valid, r.saved, b, x.main.value);
    } else if x.main.Some? {
      TracedGrows(valid, r.saved, b, x.main.value);
    }
    forall n | n in x.side ensures Traced(valid, r.saved + [b], x.side[n]) {
      if n in r.dir.side && x.side[n] == r.dir.side[n] {
        TracedGrows(valid, r.saved, b, x.side[n]);
      } else {
        NewFilesAreTraced(valid, r.saved, b, x.side[n]);
      }
    }
  }

  lemma SurvivorIsTraced(valid: Valid, r: Run, f: Option<File>)
    requires Linear(valid, r) && Survives(valid, r.dir, f) && f.Some?
    ensures valid(f.value.bytes) && Traced(valid, r.saved, f.value) && f.value.origin !in r.dead
    ensures r.known.Some? ==> f.value.origin >= r.known.value
  {
    hide Traced;
    SurvivorIsValid(valid, r.dir, f);
  }

  lemma StepKeepsLinear(valid: Valid, r: Run, h: Happening)
    requires Linear(valid, r) && Allowed(valid, r, h)
    ensures Linear(valid, After(valid, r, h))
    ensures r.known.Some? ==> After(valid, r, h).known.Some? && After(valid, r, h).known.value >= r.known.value
    ensures r.dead <= After(valid, r, h).dead && r.saved <= After(valid, r, h).saved
  {
    hide Traced, Survives;
    if r.dir.main.Some? { TracedIsKnown(valid, r.saved, r.dir.main.value); }
    match h {
      case SaveDone(b, t, x) =>
        SavesStayTraced(valid, r, b, t, x);
        SealedIsValid(valid, b);
      case SaveDied(b, t, x) =>
        SavesStayTraced(valid, r, b, t, x);
        SealedIsValid(valid, b);
      case LoadDone(f, x) =>
        SurvivorIsValid(valid, r.dir, f);
        if f.Some? { SurvivorIsTraced(valid, r, f); }
      case LoadDied(x) =>
        if x.main.Some? && x.main != r.dir.main {
          SurvivorIsTraced(valid, r, x.main);
        }
    }
  }

  lemma SealedIsValid(valid: Valid, b: Bytes)
    requires Sealed(valid, b)
    ensures valid(b)
  {
  }

  ghost predicate Legal(valid: Valid, run: seq<Happening>) {
    run == [] || (Legal(valid, run[..|run| - 1]) && Allowed(valid, Reached(valid, run[..|run| - 1]), run[|run| - 1]))
  }

  function Reached(valid: Valid, run: seq<Happening>): Run {
    if run == [] then START else After(valid, Reached(valid, run[..|run| - 1]), run[|run| - 1])
  }

  lemma {:induction false} RunsAreLinear(valid: Valid, run: seq<Happening>)
    requires Legal(valid, run)
    ensures Linear(valid, Reached(valid, run))
  {
    hide Linear, Allowed;
    if run == [] {
      StartIsLinear(valid);
    } else {
      RunsAreLinear(valid, run[..|run| - 1]);
      StepKeepsLinear(valid, Reached(valid, run[..|run| - 1]), run[|run| - 1]);
    }
  }

  lemma StartIsLinear(valid: Valid)
    ensures Linear(valid, START)
  {
  }

  lemma {:induction false} KnownNeverGoesBack(valid: Valid, run: seq<Happening>, i: nat)
    requires Legal(valid, run) && i <= |run|
    ensures Legal(valid, run[..i])
    ensures Reached(valid, run[..i]).known.Some? ==>
              && Reached(valid, run).known.Some?
              && Reached(valid, run).known.value >= Reached(valid, run[..i]).known.value
    ensures Reached(valid, run[..i]).dead <= Reached(valid, run).dead
    decreases |run|
  {
    hide Linear, Allowed, After;
    if i == |run| {
      assert run[..i] == run;
    } else {
      var init := run[..|run| - 1];
      assert init[..i] == run[..i];
      KnownNeverGoesBack(valid, init, i);
      RunsAreLinear(valid, init);
      StepKeepsLinear(valid, Reached(valid, init), run[|run| - 1]);
    }
  }

  /**
   Whatever a load returns is, byte for byte, what some save wrote, and never the value of a save that
   died before its rename while a valid main file existed.
   */
  lemma DeadSavesNeverSurface(valid: Valid, run: seq<Happening>, f: File, x: Dir)
    requires Legal(valid, run + [LoadDone(Some(f), x)])
    ensures f.origin !in Reached(valid, run).dead
    ensures f.origin < |Reached(valid, run).saved| && f.bytes == Reached(valid, run).saved[f.origin]
  {
    hide Linear, Survives;
    var load := LoadDone(Some(f), x);
    assert (run + [load])[..|run|] == run;
    assert Allowed(valid, Reached(valid, run), load);
    RunsAreLinear(valid, run);
    SurvivorIsTraced(valid, Reached(valid, run), Some(f));
  }

  /**
   Crash-linearizability: a load that follows an acknowledged save or an earlier load returns that
   value or one from a later save.
   */
  lemma LoadsAreLinearizable(valid: Valid, run: seq<Happening>, i: nat, f: Option<File>, x: Dir)
    requires Legal(valid, run + [LoadDone(f, x)]) && i <= |run|
    requires Reached(valid, run[..i]).known.Some?
    ensures f.Some?
    ensures f.value.origin >= Reached(valid, run[..i]).known.value
    ensures f.value.origin !in Reached(valid, run).dead
    ensures f.value.origin < |Reached(valid, run).saved|
    ensures f.value.bytes == Reached(valid, run).saved[f.value.origin]
  {
    var load := LoadDone(f, x);
    assert (run + [load])[..|run|] == run;
    assert Allowed(valid, Reached(valid, run), load);
    KnownNeverGoesBack(valid, run, i);
    RunsAreLinear(valid, run);
    assert MainValid(valid, Reached(valid, run).dir);
    DeadSavesNeverSurface(valid, run, f.value, x);
  }

  /** What an acknowledged save wrote is what the next load returns, whatever loads died in between. */
  lemma SavedIsLoaded(
      valid: Valid, run: seq<Happening>, b: Bytes, t: Name, x: Dir, died: seq<Happening>, f: Option<File>, y: Dir)
    requires forall i :: 0 <= i < |died| ==> died[i].LoadDied?
    requires Legal(valid, run + [SaveDone(b, t, x)] + died + [LoadDone(f, y)])
    ensures f.Some? && f.value.bytes == b
  {
    hide Survives, Linear, Allowed;
    var saved := run + [SaveDone(b, t, x)];
    var all := saved + died;
    assert all[..|saved|] == saved && saved[..|run|] == run;
    LoadsAreLinearizable(valid, all, |saved|, f, y);
    NothingSaved(valid, saved, died);
  }

  lemma {:induction false} NothingSaved(valid: Valid, run: seq<Happening>, died: seq<Happening>)
    requires forall i :: 0 <= i < |died| ==> died[i].LoadDied?
    ensures Reached(valid, run + died).saved == Reached(valid, run).saved
    decreases |died|
  {
    if died == [] {
      assert run + died == run;
    } else {
      assert (run + died)[..|run + died| - 1] == run + died[..|died| - 1];
      NothingSaved(valid, run, died[..|died| - 1]);
    }
  }
}
