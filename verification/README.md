# CodeCaddie core, verified

CodeCaddie keeps a workspace as a log of signed events on disk and derives everything else from it.
This project models the parts whose correctness lies in runs, interleavings, crash points and loops,
and proves what they are for. `dafny verify dfyconfig.toml` checks all of it.

- **Ledger** (`Model`, `Ledger`, `Projection`, `Authority`, `Replay`, `ReportHistory`, `ReportLimits`,
  `GoalSets`, `ReportGate`, `GateMeaning`): the event-sourced state machine, its in-place implementation
  as a class, who may change it and how, rebuilding from a log, what holds in every reachable state, and
  the gate in front of it. Signature checking is a field of the envelope.
- **Scoring**: the priority-weighted coverage, over reals.
- **Files** (`Bytes`, `AtRest`, `EventLog`, `LocalState`): the encrypted event log and the atomically
  replaced state file. Each file operation is a method that also records every content the file or
  directory passes through, so that a crash at any step leaves one of the recorded contents. The cipher
  is a parameter with laws: what is sealed opens again, sealed bytes contain no newline and do not end in
  a carriage return, and bytes accepted unencrypted are their own plaintext (`AtRest.LawsAreConsistent`
  exhibits a cipher that meets them). The state file asks that a strict prefix of sealed bytes never
  passes as valid.
- **Protocols** (`Leases`, `Sessions`): snapshot leases and analysis-session claims as state machines
  over the steps of any number of actors, with crashes between any two steps.
- **Maps** (`Maps`, `Clipping`, `Sections`, `MapBuild`, `MapProvenance`, `MapAccount`, `Screening`,
  `MapContents`, `Materialize`, `FrozenSets`, `Fingerprints`, `FragmentLaws`): building a codebase map,
  tracing every part of it to the submission, accounting for every item submitted, screening its
  narrative, and the streaming comparison with repository text.
- **Text** (`Common`, `Text`, `TextLaws`): strings as the source handles them, each function with the law
  that fixes what it computes.
- **Formats** (`Crc32`, `Zip`, `ZipLayout`, `LineReader`): CRC-32 and the stored ZIP writer of the PKWARE APPNOTE
  (sections 4.3.7, 4.3.12, 4.3.16 and 4.4.7), and the bounded line reader.

## Properties that hold only under a condition

- *Replay depends only on the set of events*: needs that different envelopes differ in
  (lamport, event id, device). `Replay.SharedKeyOrderMattersIff` says exactly when two envelopes that
  share a key make the order matter.
- *No completed report is lost*: a report whose id is the history key its predecessor is moved to
  overwrites that predecessor. `ReportHistory.RunsConserveReports` shows that nothing is lost in a run if
  and only if no step does that, and `EveryCompletionIsAccountedFor` says what becomes of every completion
  in any run; `ClashHappens` and `Replay.RebuildLosesAReport` show a log that loses one. Ids outside the
  history namespace of their own event never do. Permanence of deletion, uniqueness of event ids and the
  numbering need no condition.
- *The newest report is kept*: unless a clash overwrote one (`ReportLimits.NewestIsKept`,
  `NewestIsOverwritten`).
- *Ordinals are a bijection onto 1..count*: in every run, if and only if the completions do not outnumber
  the 32-bit counter, which saturates (`ReportHistory.RunOrdinalsAreUniqueIff`); `ReportLimits.OrdinalsRepeat`
  gives the run that is one too long.
- *A package reads back*: if and only if its count, names and two totals fit the fields of the format
  (`Zip.ExportedPackageRoundTrip`).
- *Every dropped item is named in the warnings*, says the header of the map builder. The code passes over
  in silence what lies beyond a cap, repeated relationships, and steps of kept flows beyond the tenth or
  of unknown components (`MapAccount.AnItemVanishes`). `MapAccount.NothingIsSilentIff` gives the exact
  condition, and `EveryItemIsAccountedFor` the count for every submission. What belongs to a dropped item
  is dropped with it; citations and root paths are attributes, not items.

## Model

| member | source | states |
|---|---|---|
| `Projection.WorkspaceProjection.ApplyEnvelope` | crates/codecaddie-domain/src/projection.rs:110-382 | The in-place update equals the specified transition; on any failure the error is the specified one and the whole state is as before. |
| `Projection.WorkspaceProjection.ApplyContent` | crates/codecaddie-domain/src/projection.rs:176-379 | The same, for everything after authorization. |
| `Projection.WorkspaceProjection.ReplaceGoalSet` | crates/codecaddie-domain/src/projection.rs:207-239 | Replaces the approvals and adds the versions when the set is acceptable, and changes nothing otherwise. |
| `Projection.WorkspaceProjection.CompleteReport` | crates/codecaddie-domain/src/projection.rs:240-271 | Stores the report under its id and moves a previous holder of that id to a free history key. |
| `Projection.WorkspaceProjection.DeleteReport` | crates/codecaddie-domain/src/projection.rs:272-304 | Removes exactly the first key that holds the event, unless it is the latest report, was deleted before, or never existed. |
| `Projection.FreeHistoryKey` | crates/codecaddie-domain/src/projection.rs:255-258 | The search for a free key terminates for every set of taken keys and returns the first free extension. |
| `Projection.FindFirstKey` | crates/codecaddie-domain/src/projection.rs:273-276 | The key found is the least one holding the value, in the order of the ordered map. |
| `Projection.FindLatest` | crates/codecaddie-domain/src/projection.rs:285-294 | The report found is the one with the greatest (completion time, ordinal), the last key among equals. |
| `Projection.LatestUnique` | crates/codecaddie-domain/src/projection.rs:285-299 | There is only one latest report, so comparing its event id decides deletability. |
| `Projection.CheckGoalSet` | crates/codecaddie-domain/src/projection.rs:207-229 | The single pass with three sets accepts exactly the goal sets the declarative condition accepts. |
| `Authority.OnlyWarrantedEventsApply` | crates/codecaddie-domain/src/projection.rs:110-175 | In every run, every event that took effect is validly signed, comes from the device, actor and key of a signed founding event of the run, and, unless it founds, is for this workspace at its epoch; so is every device of the workspace rooted. |
| `Authority.AppliesIff` | crates/codecaddie-domain/src/projection.rs:110-382 | A new event applies if and only if it is signed, belongs to the workspace and its epoch, comes from an editor under its own actor and key, and its content fits the state; a founding event if and only if it is signed by the device it founds with and nothing is founded yet. |
| `Authority.RefusalsAreExact` | crates/codecaddie-domain/src/projection.rs:115-175 | Each refusal of the envelope has its exact condition, first come first served: invalid signature, wrong workspace, missing workspace, stale epoch, forbidden. |
| `Authority.EventTakesEffect` | crates/codecaddie-domain/src/projection.rs:176-379 | What each event leaves behind, field by field: the one entry it writes, and every other entry as it was. |
| `Authority.AcceptableMeans` | crates/codecaddie-domain/src/projection.rs:207-229 | The goal sets accepted: valid versions with distinct ids and goals, and distinct positions from 1 to their number. |
| `Authority.LatestKeyMeans` | crates/codecaddie-domain/src/projection.rs:285-294 | The latest report: no active report completed later, nor at the same time with a greater ordinal. |
| `Authority.TransitionsAre` | crates/codecaddie-domain/src/model.rs:217-231 | The table of action transitions, pair by pair. |
| `Authority.HistoryKeyIsFirst` | crates/codecaddie-domain/src/projection.rs:255-258 | The history key is the base key with the least number of NUL characters that makes it free. |
| `Authority.DisplacedGoesToHistory` | crates/codecaddie-domain/src/projection.rs:253-263 | A displaced report, with its event, stands under that key after the completion. |
| `Replay.SortSorts` | crates/codecaddie-domain/src/projection.rs:88-96 | The replay order is sorted by (lamport, event id, device) and holds exactly the events, each as often as before. |
| `Replay.ReplayOrder` | crates/codecaddie-domain/src/projection.rs:88-96 | On the fields: Lamport times ascend; at equal times event ids do; at equal ids device ids do. |
| `TextLaws.BelowMeans` | crates/codecaddie-domain/src/projection.rs:90-96 | The string order compared by: a proper prefix, or the smaller character at the first difference. |
| `Replay.SortIsStable` | crates/codecaddie-domain/src/projection.rs:88-96 | Events that share a key keep their order. |
| `Replay.RebuildProjection` | crates/codecaddie-domain/src/projection.rs:88-108 | The rebuild loop over the projection object computes the specified replay of the sorted log, or its first error. |
| `Replay.ReplayDependsOnlyOnTheSet` | crates/codecaddie-domain/src/projection.rs:88-114 | Any two logs with the same envelopes, permuted or duplicated in any way, rebuild to the same state or the same error, when different envelopes differ in the sort key. |
| `Replay.FirstOfEqualsDecides` | crates/codecaddie-domain/src/projection.rs:88-114 | Of two events with one key that sort last, the one that stands first in the log decides the result. |
| `Replay.SharedKeyOrderMattersIff` | crates/codecaddie-domain/src/projection.rs:88-114 | For any log that rebuilds and any two events with one key that sort after it and apply, their order matters exactly when they lead to different states. |
| `Replay.SharedKeyMakesOrderMatter` | crates/codecaddie-domain/src/projection.rs:90-96 | For instance two founding events that share a key and differ in name: the result depends on their order. |
| `Replay.AbandonedEpochsDoNotMatter` | crates/codecaddie-domain/src/projection.rs:99-105 | Removing any set of events of abandoned epochs from a log that rebuilds leaves the result unchanged. |
| `Replay.RebuildIsIncremental` | crates/codecaddie-domain/src/projection.rs:88-108 | Appending an event that sorts last and applies makes the rebuild equal one more `apply`. |
| `Replay.ReplayIsARun` | crates/codecaddie-domain/src/projection.rs:97-107 | Whatever a rebuild reaches is reached by a run of `apply`, so every run invariant holds of it. |
| `Replay.RebuiltWorkspaceIsSound` | crates/codecaddie-domain/src/projection.rs:88-108 | A rebuilt workspace conserves its reports if and only if its log did not clash; in any case every completion is active, deleted or overwritten, ordinals are unique exactly until the counter saturates, event ids are unique and approvals resolve. |
| `Replay.RebuildLosesAReport` | crates/codecaddie-domain/src/projection.rs:240-271 | A log of three events that rebuilds and whose first report is then neither active nor deleted. |
| `ReportHistory.CompletionConservesIff` | crates/codecaddie-domain/src/projection.rs:253-270 | A completion keeps every report, old and new, accounted for if and only if the displaced report is not moved onto the very key its replacement then takes. |
| `ReportHistory.ClashHappens` | crates/codecaddie-domain/src/projection.rs:255-263 | A run of three applied events after which the first completed report is neither active nor deleted: both reports carry the history key of the second event as their id. |
| `ReportHistory.NoClashOutsideHistory` | crates/codecaddie-domain/src/projection.rs:255 | A report id that does not extend its own event's history key can never fail this way. |
| `ReportHistory.CompletionNumbers` | crates/codecaddie-domain/src/projection.rs:266-268 | Every completion gets the next ordinal, until the counter saturates. |
| `ReportHistory.OrdinalsAreUniqueIff` | crates/codecaddie-domain/src/projection.rs:266-268 | Wherever completions are numbered this way, ordinals are one-to-one if and only if the completions do not outnumber the counter. |
| `ReportHistory.RunsNumberCompletions` | crates/codecaddie-domain/src/projection.rs:266-268 | In every run, clash or not, ordinals number the completions. |
| `ReportHistory.RunOrdinalsAreUniqueIff` | crates/codecaddie-domain/src/projection.rs:266-268 | So in every run ordinals are one-to-one, and exactly 1..count, if and only if the completions do not outnumber the 32-bit counter. |
| `ReportLimits.OrdinalsRepeat` | crates/codecaddie-domain/src/projection.rs:266-268 | A run of one completion more than the counter can count, after which two completions share an ordinal; with one fewer none do. |
| `ReportHistory.CompletionKeepsNewest` | crates/codecaddie-domain/src/projection.rs:253-270 | The newest report ever completed stays active when another completes. |
| `ReportHistory.DeletionConserves` | crates/codecaddie-domain/src/projection.rs:272-304 | Deletion moves one event from active to deleted and loses nothing. |
| `ReportHistory.DeletionKeepsNewest` | crates/codecaddie-domain/src/projection.rs:285-299 | No deletion removes the newest report ever completed, whatever was deleted before it. |
| `ReportHistory.LatestIsNewest` | crates/codecaddie-domain/src/projection.rs:285-299 | The latest among the active reports is the newest of all reports ever completed. |
| `ReportHistory.EveryCompletionIsAccountedFor` | crates/codecaddie-domain/src/projection.rs:240-304 | In every run each completion is exactly one of active, deleted, or overwritten by a step that clashed with it. |
| `ReportHistory.RunsConserveReports` | crates/codecaddie-domain/src/projection.rs:240-304 | Each completion is exactly one of active or deleted, with keys that match the event index, if and only if no step of the run clashed; then the newest report is still active. |
| `ReportLimits.NewestIsKept` | crates/codecaddie-domain/src/projection.rs:285-299 | In every run a newest report is still active unless a clash overwrote one; until the counter saturates, exactly when the newest was not overwritten. |
| `ReportLimits.NewestIsOverwritten` | crates/codecaddie-domain/src/projection.rs:253-270 | A run of three applied events after which the newest report is gone. |
| `ReportHistory.OrdinaryRunsDoNotClash` | crates/codecaddie-domain/src/projection.rs:255 | No run whose report ids stay out of the history namespace of their own event clashes. |
| `ReportHistory.RunsAreTidy` | crates/codecaddie-domain/src/projection.rs:240-304 | In every reachable state, clash or not, event ids are unique among the active reports and none is also deleted. |
| `ReportHistory.DeletionIsPermanent` | crates/codecaddie-domain/src/projection.rs:300-303 | A deleted report event is deleted and inactive in every later state. |
| `GoalSets.AcceptedPositionsAreContiguous` | crates/codecaddie-domain/src/projection.rs:215-229 | An accepted replacement of n goals has positions exactly 1..n, although contiguity is never tested: distinct and in range leave no gap. |
| `GoalSets.AcceptedSetApprovesEveryGoal` | crates/codecaddie-domain/src/projection.rs:235-238 | The replacement approves n goals, each with its own version. |
| `GoalSets.RunsKeepGoalsAndActions` | crates/codecaddie-domain/src/projection.rs:184-239 | In every reachable state every approved id resolves to a stored, valid version, every stored version and action is filed under its own id, and an action waiting for verification carries a note. |
| `ReportGate.ValidateReport` | crates/codecaddie-core/src/report_integrity.rs:37-241 | The validation accepts exactly the reports that satisfy all the declared conditions. |
| `ReportGate.CheckRepositories` | crates/codecaddie-core/src/report_integrity.rs:52-60 | Duplicate detection by set insertion accepts exactly distinct, registered, repositories frozen at full commits. |
| `ReportGate.CheckVerifiers` | crates/codecaddie-core/src/report_integrity.rs:61-87 | Accepts exactly when every frozen repository has one local verifier that resolves its commit to itself. |
| `ReportGate.CheckGoals` | crates/codecaddie-core/src/report_integrity.rs:89-120 | Accepts exactly the reports whose goal versions are distinct, are the approved set, and hash to the stated value. |
| `ReportGate.CheckAssessments` | crates/codecaddie-core/src/report_integrity.rs:122-163 | Accepts exactly the reports that assess every goal version once and every criterion of it once, with the aggregate verdict and evidence for every positive claim. |
| `ReportGate.CheckArchitecture` | crates/codecaddie-core/src/report_integrity.rs:171-187 | Accepts exactly complete architecture claims with distinct ids, linked goals and evidence. |
| `ReportGate.CheckRecommendations` | crates/codecaddie-core/src/report_integrity.rs:188-206 | Accepts exactly complete recommendations with distinct ids and ranks, linked goals and evidence. |
| `ReportGate.CheckEvidence` | crates/codecaddie-core/src/report_integrity.rs:208-239 | Accepts exactly when every reference of every claim is well shaped, from a frozen repository at its commit, and verifies. |
| `GateMeaning.AcceptedIff` | crates/codecaddie-core/src/report_integrity.rs:37-241 | Acceptance in terms of the report alone, both ways: repositories, verifiers, goals, assessments, claims, recommendations, and each reference looked for where it stands. |
| `GateMeaning.AcceptedEvidenceIsVerified` | crates/codecaddie-core/src/report_integrity.rs:208-239 | Every reference of every criterion, claim and recommendation of an accepted report is complete, names a frozen repository at its frozen commit, and verified. |
| `GateMeaning.AllEvidenceIs` | crates/codecaddie-core/src/report_integrity.rs:208-222 | The references checked are those of the criteria, the claims and the recommendations, and no others. |
| `ReportGate.AcceptedReportCoversEveryCriterion` | crates/codecaddie-core/src/report_integrity.rs:89-163 | An accepted report assesses every criterion of every approved goal, each exactly once. |
| `ReportGate.AcceptedReportKeepsLogReplayable` | crates/codecaddie-core/src/report_integrity.rs:89-103 | A report accepted against the rebuilt log can be appended, signed by an editor at the current epoch under a fresh id that sorts last, and the log still rebuilds, to one incremental `apply`. |
| `Scoring.IndexAssessments` | crates/codecaddie-domain/src/scoring.rs:39-42 | The index holds the last assessment of each goal. |
| `Scoring.CollectValues` | crates/codecaddie-domain/src/scoring.rs:54-66 | The pass over criteria yields the sum of the assessed values and both counts. |
| `Scoring.ScoreReport` | crates/codecaddie-domain/src/scoring.rs:38-81 | The accumulating loop computes the weighted average and the counts of the specification. |
| `Scoring.GoalScoreMeansVerdict` | crates/codecaddie-domain/src/scoring.rs:11-36 | A goal's average is absent iff its verdict is Unverified, 1 iff Supported, 0 iff Unsupported, and otherwise between. |
| `Scoring.CoverageIsSound` | crates/codecaddie-domain/src/scoring.rs:38-81 | Coverage is absent iff nothing was assessed, lies in [0, 1], and is 1 (or 0) iff every goal with an assessed criterion is Supported (or Unsupported). |
| `Scoring.CoverageIsMonotone` | crates/codecaddie-domain/src/scoring.rs:38-81 | Coverage never falls when criteria move up from Unsupported to Partial to Supported. |
| `Scoring.CountsAreComplete` | crates/codecaddie-domain/src/scoring.rs:44-75 | Assessed and unverified criteria together are all criteria. |
| `Scoring.GoalScoreCounts` | crates/codecaddie-domain/src/scoring.rs:11-18 | The average of a goal in counts: supported criteria count fully, partial ones half, unsupported ones not, unverified ones are left out. |
| `Scoring.VerdictCounts` | crates/codecaddie-domain/src/scoring.rs:20-36 | The verdict of a goal in counts: what all its assessed criteria share, or partial. |
| `Scoring.HalvesBalance` | crates/codecaddie-domain/src/scoring.rs:11-18 | One supported and one unsupported criterion weigh as much as two partial ones. |
| `Scoring.PriorityIsRepetition` | crates/codecaddie-domain/src/scoring.rs:69-73 | A goal of priority k counts like k goals of priority 1, among any others. |
| `Scoring.OneGoalIsCovered` | crates/codecaddie-domain/src/scoring.rs:38-81 | One goal alone is covered as far as its last assessment says, whatever its priority. |
| `Scoring.GoalsAddUp` | crates/codecaddie-domain/src/scoring.rs:44-75 | Weights, contributions and both counts of a list of goals add up. |
| `Scoring.LastAssessmentCounts` | crates/codecaddie-domain/src/scoring.rs:39-42 | Of several assessments of one goal the last one counts. |
| `EventLog.LogFile.RecoverUnterminatedTail` | crates/codecaddie-core/src/storage.rs:274-293 | Truncates to the last newline and so drops no committed record. |
| `EventLog.LogFile.FirstCommittedRecord` | crates/codecaddie-core/src/storage.rs:242-253 | Returns the first committed record of any file, if there is one. |
| `EventLog.LogFile.LastCommittedRecord` | crates/codecaddie-core/src/storage.rs:255-272 | Returns the last committed record of any file, torn or not, if there is one. |
| `EventLog.LogFile.OpenRecords` | crates/codecaddie-core/src/storage.rs:316-353 | The reading loop opens every committed record in order and notes both kinds, or fails on a record that does not open. |
| `EventLog.LogFile.Load` | crates/codecaddie-core/src/storage.rs:307-354 | Succeeds iff every record opens, none is mixed in and all parse; returns the plaintexts in order; every file content on the way is listed. |
| `EventLog.LoadableMeans` | crates/codecaddie-core/src/storage.rs:307-354 | A load succeeds exactly when every record opens and parses, and all are encrypted or none is. |
| `EventLog.RecordsMean` | crates/codecaddie-core/src/storage.rs:274-293 | A file is read line by line: a record ends at its newline, which takes one carriage return along, and what has no newline is no record. |
| `EventLog.LogFile.Protect` | crates/codecaddie-core/src/storage.rs:132-170 | Rewrites a log with any plaintext record as sealed records; every file content on the way is listed. |
| `EventLog.LogFile.Append` | crates/codecaddie-core/src/storage.rs:181-240 | Recovers the tail, migrates a plaintext log, skips a value that is already last, else writes one sealed line; succeeds exactly when the log begins encrypted and its last record opens, or loads; every file content after each byte is listed. |
| `EventLog.LogFile.WriteAtEnd` | crates/codecaddie-core/src/storage.rs:220-231 | The write passes through every prefix of the line. |
| `EventLog.TornLineIsInvisible` | crates/codecaddie-core/src/storage.rs:274-293 | A line cut at any byte before its newline adds no record. |
| `EventLog.AppendIsAtomic` | crates/codecaddie-core/src/storage.rs:181-240 | Every content an append passes through holds the old log or the old log and the value, with all earlier bytes untouched; the last one holds the value. |
| `EventLog.AppendWritesTheValue` | crates/codecaddie-core/src/storage.rs:181-240 | Read back after an append, the log is not empty, ends with the value, and is the old log or the old log and the value. |
| `EventLog.InterruptedAppends` | crates/codecaddie-core/src/storage.rs:181-240 | So does the file after any number of attempts, each cut after any byte. |
| `EventLog.AppendExactlyOnce` | crates/codecaddie-core/src/storage.rs:181-240 | After any number of interrupted attempts, one that completes leaves the log with the value appended once (or unchanged if it was already last); read back, its last value is the one appended. |
| `EventLog.SealedLogHolds` | crates/codecaddie-core/src/storage.rs:328-336 | A rewritten log decodes to exactly the plaintexts it was written from, all encrypted. |
| `EventLog.MigrationKeepsMeaning` | crates/codecaddie-core/src/storage.rs:132-170 | Every content during a load or a protection decodes to the same records in order, and at the end all are encrypted. |
| `EventLog.ProtectionIsIdempotent` | crates/codecaddie-core/src/storage.rs:132-170 | Protecting a protected log changes nothing, and it is never refused as mixed. |
| `LocalState.StateDirectory.WriteTemporary` | crates/codecaddie-core/src/persistence.rs:150-162 | The temporary file passes through every byte prefix; the main file stays. |
| `LocalState.StateDirectory.Cleanup` | crates/codecaddie-core/src/persistence.rs:357-392 | Removes exactly the matching sidecars, one at a time, and never touches the main file. |
| `LocalState.StateDirectory.Save` | crates/codecaddie-core/src/persistence.rs:278-300 | Ends with the new value in place; every directory on the way has the old or the new main file. |
| `LocalState.StateDirectory.FindCandidate` | crates/codecaddie-core/src/persistence.rs:317-326 | Finds the valid sidecar with the greatest name, if any is valid. |
| `LocalState.StateDirectory.Promote` | crates/codecaddie-core/src/persistence.rs:327-338 | Quarantine and rename keep, at every step, the value that the next recovery will produce. |
| `LocalState.StateDirectory.Recover` | crates/codecaddie-core/src/persistence.rs:302-341 | Ends with the surviving value as main file and no sidecar, or changes nothing when nothing is valid. |
| `LocalState.StateDirectory.Load` | crates/codecaddie-core/src/persistence.rs:97-107 | Recovers and returns the surviving value; every directory on the way has the same survivor. |
| `LocalState.StateDirectory.LoadMigrating` | crates/codecaddie-core/src/persistence.rs:97-113 | Also replaces a legacy plaintext file by its sealed form after reading it; every directory on the way is one of the recovery or of that save. |
| `LocalState.MigrationKeepsValue` | crates/codecaddie-core/src/persistence.rs:97-113 | Wherever that stops, the next load returns the same value, in its old or its sealed form. |
| `LocalState.SurvivorUnique` | crates/codecaddie-core/src/persistence.rs:311-326 | What a directory stands for is one value. |
| `LocalState.SurvivorIs` | crates/codecaddie-core/src/persistence.rs:302-326 | That value is the valid main file, else the valid sidecar of the greatest id, a temporary one before a quarantined one; it is none exactly when no file is valid. |
| `LocalState.SurvivorExists` | crates/codecaddie-core/src/persistence.rs:302-326 | Every directory stands for a value, or for none. |
| `LocalState.RecoveryIsRestartable` | crates/codecaddie-core/src/persistence.rs:302-341 | Recovery interrupted at any step, any number of times, and run again yields the same value. |
| `LocalState.RunsAreLinear` | crates/codecaddie-core/src/persistence.rs:97-119 | Over every run of saves, loads and crashes the main file is valid, holds exactly what one save wrote, and is never older than what the caller knows. |
| `LocalState.DeadSavesNeverSurface` | crates/codecaddie-core/src/persistence.rs:278-300 | Whatever a load returns is byte for byte what some save wrote, and never the value of a save that died before its rename while a valid main file existed. |
| `LocalState.LoadsAreLinearizable` | crates/codecaddie-core/src/persistence.rs:97-119 | A load after an acknowledged or loaded value returns that value or one of a later save. |
| `LocalState.SavedIsLoaded` | crates/codecaddie-core/src/persistence.rs:97-119 | What an acknowledged save wrote is what the next load returns, whatever loads died in between. |
| `Leases.StepKeepsInv` | crates/codecaddie-core/src/repository.rs:646-784 | Every step of every actor keeps the lock and ownership invariant. |
| `Leases.LockExcludesOwner` | crates/codecaddie-core/src/repository.rs:763-772 | A probe that gets a lease lock proves that nobody owns the directory, because creators hold the parent lock until they hold the lease. |
| `Leases.EveryStateIsSound` | crates/codecaddie-core/src/repository.rs:646-784 | The invariant holds in every state of every run. |
| `Leases.HeldSnapshotsAreNeverRemoved` | crates/codecaddie-core/src/repository.rs:646-666 | Over every interleaving with crashes, a snapshot whose owner holds its lease exists with its lease file, and no other actor locks, claims or has condemned it. |
| `Leases.UnfinishedSnapshotsAreNeverRemoved` | crates/codecaddie-core/src/repository.rs:721-735 | A directory still being created exists, and no cleanup pass runs meanwhile. |
| `Leases.CompletedPassRemovesStale` | crates/codecaddie-core/src/repository.rs:737-784 | Every directory whose lease file was unheld when a completed pass began is gone when it ends, and never returns. |
| `Leases.CleanupHappens` | crates/codecaddie-core/src/repository.rs:737-784 | The premises are met: a concrete run in which a snapshot is held, its owner crashes, and a completed pass finds and removes the directory. |
| `Leases.RemovedForGood` | crates/codecaddie-core/src/repository.rs:692-702 | A removed directory never comes back. |
| `Leases.DroppedLeavesNothing` | crates/codecaddie-core/src/repository.rs:692-702 | A completed drop, or a creation that fails, leaves no directory, then or at any later state, and nobody owns it. |
| `Leases.ReleasedIsStale` | crates/codecaddie-core/src/repository.rs:692-702 | A lease released by a drop or a crash leaves a stale directory, which the next pass takes. |
| `Leases.SectionsGoOn` | crates/codecaddie-core/src/repository.rs:721-784 | An actor inside the parent lock can always take a further step without failing. |
| `Leases.SectionsEnd` | crates/codecaddie-core/src/repository.rs:721-784 | Each of its steps brings it nearer to the end, where the lock is released. |
| `Leases.FreeSectionAdmits` | crates/codecaddie-core/src/repository.rs:721-735 | Whoever is outside may enter once nobody is inside. |
| `Leases.LeaselessDirectoriesAreSkipped` | crates/codecaddie-core/src/repository.rs:762-768 | A directory abandoned before its lease file was written is left alone by every pass. |
| `Sessions.NamesAreDistinct` | crates/codecaddie-core/src/agent_gateway.rs:530-541 | No session id addresses a claimed file, and different sessions or claims have different file names. |
| `Sessions.StepKeepsInv` | crates/codecaddie-core/src/agent_gateway.rs:562-612 | Every step keeps one token per session: the original file, one active claimant, or one record. |
| `Sessions.EveryStateIsSound` | crates/codecaddie-core/src/agent_gateway.rs:281-328 | The invariant holds after every run. |
| `Sessions.SessionRecordedAtMostOnce` | crates/codecaddie-core/src/agent_gateway.rs:281-328 | Over every interleaving of submissions, rejections, collection and crashes, at most one record per session succeeds. |
| `Sessions.SessionIsExclusive` | crates/codecaddie-core/src/agent_gateway.rs:562-573 | While one submission holds a session, or after one recorded it, no other can claim it. |
| `Sessions.RejectedSessionIsClaimableAgain` | crates/codecaddie-core/src/agent_gateway.rs:77-83 | A rejected, unexpired submission that runs its drop to the end leaves the session claimable by anyone. |
| `Sessions.SessionsAreConserved` | crates/codecaddie-core/src/agent_gateway.rs:242-258 | Every session opened is still there, being submitted, recorded, expired, retracted or lost in a crash. |
| `Sessions.RetractedIsGone` | crates/codecaddie-core/src/agent_gateway.rs:249-258 | A session retracted before anyone claimed it can never be claimed, in whatever happens next. |
| `Sessions.RecordedIsGone` | crates/codecaddie-core/src/agent_gateway.rs:323-328 | Nor can one whose report was recorded; its file is removed with the claim. |
| `Sessions.GoneForGood` | crates/codecaddie-core/src/agent_gateway.rs:562-573 | A session without a file and without a submission never comes back. |
| `Sessions.OpenedIsClaimable` | crates/codecaddie-core/src/agent_gateway.rs:226-248 | A session just opened can be claimed by anyone, and expires exactly a day later. |
| `Sessions.StaleSessionsAreNotSubmitted` | crates/codecaddie-core/src/agent_gateway.rs:576-585 | Once a day has passed since a session was opened, no submission of it starts any more. |
| `Sessions.ExpiredIsRemoved` | crates/codecaddie-core/src/agent_gateway.rs:581-612 | What is removed as expired has expired, and is gone afterwards. |
| `Sessions.ActorsGoOn` | crates/codecaddie-core/src/agent_gateway.rs:562-612 | No actor hangs: each can take a further step, and every step of it leads nearer to idle. |
| `Fingerprints.EachFragment` | crates/codecaddie-core/src/repository.rs:426-461 | The four-word window yields exactly the trimmed line and all runs of three or four consecutive cleaned words, of at least 24 characters. |
| `Fingerprints.PhraseExtends` | crates/codecaddie-core/src/repository.rs:437-459 | One more word adds exactly the runs that end with it. |
| `Fingerprints.AddFingerprint` | crates/codecaddie-core/src/repository.rs:469-482 | Adds an owner for a hash, or refuses exactly when the table is full and the hash is new. |
| `Fingerprints.FieldFingerprints` | crates/codecaddie-core/src/repository.rs:465-485 | The table maps every hash to exactly the fields that produce it; it is refused exactly when the fields produce more distinct hashes than it may hold. |
| `Fingerprints.CollectMatchingFields` | crates/codecaddie-core/src/repository.rs:490-503 | Collects exactly the fields that own a hash of the text. |
| `Fingerprints.AllMatchedIsFinal` | crates/codecaddie-core/src/repository.rs:374-382 | Stopping once all fields matched changes nothing. |
| `Fingerprints.AllMatchedIff` | crates/codecaddie-core/src/repository.rs:374-382 | There are as many matches as fields exactly when every field has matched. |
| `Fingerprints.NarrativeFieldsMatchingSource` | crates/codecaddie-core/src/repository.rs:312-394 | The streaming scan reports exactly the fields that share a hash with a compared source line, and answers exactly unless there are too many fingerprints, too much text before every field has matched, or a failed listing. |
| `Fingerprints.HitsMeanSharedFragments` | crates/codecaddie-core/src/repository.rs:303-311 | With an injective hash a field is flagged iff it shares a fragment with the source; with any hash a shared fragment is never missed. |
| `FragmentLaws.CleanedMeans` | crates/codecaddie-core/src/repository.rs:435-439 | A word is cut to what lies between its first and its last alphanumeric character. |
| `FragmentLaws.PhrasesAre` | crates/codecaddie-core/src/repository.rs:434-459 | A phrase is three or four consecutive words, one space apart, of 24 characters or more. |
| `FragmentLaws.CopiedLineIsCaught` | crates/codecaddie-core/src/repository.rs:430-433 | A source line of 24 characters or more that a field copies, with any indentation, is a hit for every hash. |
| `FragmentLaws.OthersAreNotCompared` | crates/codecaddie-core/src/repository.rs:354-376 | A line over 8 MiB, or one that does not decode, never makes a hit. |
| `FragmentLaws.BytesAddUp` | crates/codecaddie-core/src/repository.rs:346-353 | The amount of source text is the sum of its lines. |
| `FragmentLaws.LimitsAre` | crates/codecaddie-core/src/repository.rs:349-353 | The two limits in numbers: 250000 fingerprints and 512 MiB of source text. |
| `Maps.StructureAndFieldsDetermineMap` | crates/codecaddie-core/src/analyzer/map_materialize.rs:397-431 | A map is determined by its structure and its flattened narrative fields. |
| `MapContents.FieldsAre` | crates/codecaddie-core/src/analyzer/map_materialize.rs:397-431 | The texts screened are those of every section, and no others. |
| `MapContents.EvidenceIs` | crates/codecaddie-core/src/analyzer/map_materialize.rs:569-607 | The references looked at are those of every component, interface, concern, technology, relationship, step and entry point, and no others. |
| `Screening.ReplaceNarrativeField` | crates/codecaddie-core/src/analyzer/map_materialize.rs:507-545 | The running cursor refines index update on the flattened field list, leaves the structure alone, and changes nothing for an index out of range. |
| `Screening.NeutralMirrorsFields` | crates/codecaddie-core/src/analyzer/map_materialize.rs:439-505 | The neutral list has one text per field and depends on the structure alone. |
| `MapContents.NeutralIsBland` | crates/codecaddie-core/src/analyzer/map_materialize.rs:439-505 | Each neutral text stands in the place of the text it replaces: together they make the map with every text withheld. |
| `MapContents.RedactedEverywhere` | crates/codecaddie-core/src/analyzer/map_materialize.rs:647-662 | Redacting every field gives that map, and redacting none the original. |
| `Screening.RedactFields` | crates/codecaddie-core/src/analyzer/map_materialize.rs:647-662 | After all replacements each violating field holds its neutral text and every other field its own; ids, evidence and counts are unchanged; the originals are reported once each, in ascending order. |
| `Screening.CheckExcerpts` | crates/codecaddie-core/src/analyzer/map_materialize.rs:608-639 | Reading each coordinate once marks exactly the fields that quote some cited excerpt or one of its longer lines; it fails exactly at a reference that does not verify and is the first with its coordinate. |
| `MapContents.QuotesMeans` | crates/codecaddie-core/src/analyzer/map_materialize.rs:624-638 | A field quotes an excerpt when it contains all of it, from 16 bytes on, or one of its lines, from 24 bytes on, both without surrounding whitespace. |
| `Screening.ScanRepositories` | crates/codecaddie-core/src/analyzer/map_materialize.rs:564-567 | Collects exactly the fields that hit some repository, and succeeds exactly when every repository can be scanned. |
| `MapContents.CredentialIsSeen` | crates/codecaddie-core/src/analyzer/map_materialize.rs:558-562 | A credential marker in any text of the map, in any case, is seen, for a lower-casing that works on parts. |
| `Screening.Screen` | crates/codecaddie-core/src/analyzer/map_materialize.rs:550-668 | Exactly the violating fields are replaced, or the map is refused; a map kept under Reject is untouched; each of the four refusals has its exact condition. |
| `MapContents.QuotingViolates` | crates/codecaddie-core/src/analyzer/map_materialize.rs:608-639 | A text that quotes 16 bytes or more of cited lines, for a verified reference of any section, violates. |
| `MapContents.CopyingViolates` | crates/codecaddie-core/src/analyzer/map_materialize.rs:564-567 | A text that copies a line of 24 characters or more of any repository violates. |
| `MapContents.ViolationsAreHidden` | crates/codecaddie-core/src/analyzer/map_materialize.rs:640-668 | In a map that is kept, every violating text is replaced by the neutral text of its place and reported. |
| `Clipping.ClippedFits` | crates/codecaddie-core/src/analyzer/map_materialize.rs:35-80 | Clipped text is one line of single-spaced words within its budget: the whole line, or a proper part from its start closed by an ellipsis; empty only for blank input. |
| `Clipping.CutFallsOnBoundary` | crates/codecaddie-core/src/analyzer/map_materialize.rs:67-80 | The cut falls on the last word boundary within the budget, after a whole word, when that lies past half of it, and only otherwise at the end of the budget. |
| `MapBuild.SurveyIsIndexed` | crates/codecaddie-core/src/analyzer/map_materialize.rs:111-168 | The name index holds exactly the kept components, under distinct normalized names; each surveyed component is kept or warned about. |
| `MapBuild.SurveyComponents` | crates/codecaddie-core/src/analyzer/map_materialize.rs:111-168 | The loop over at most 24 components builds that skeleton. |
| `MapProvenance.SurveyedIff` | crates/codecaddie-core/src/analyzer/map_materialize.rs:113-168 | A surveyed component is kept exactly when it is named, of a known repository, new, cited and rooted, with each field from its own submission; otherwise the warning says the first of these that fails. |
| `MapProvenance.ComponentsComeFrom` | crates/codecaddie-core/src/analyzer/map_materialize.rs:111-168 | Components come from submissions in order, each field from its own, and every presentable name is indexed. |
| `MapProvenance.RootsComeFrom` | crates/codecaddie-core/src/analyzer/map_materialize.rs:140-149 | The root paths kept are exactly the submitted ones, clipped, that are relative and never go upwards. |
| `MapProvenance.PartsMean` | crates/codecaddie-core/src/analyzer/map_materialize.rs:144-148 | The parts of a path are what lies between its slashes. |
| `MapBuild.KeepTechnologies` | crates/codecaddie-core/src/analyzer/map_materialize.rs:174-194 | Of the first 16 technologies exactly those with bound evidence are kept, in order, and each other one is named in a warning, in order. |
| `MapProvenance.TechnologiesComeFrom` | crates/codecaddie-core/src/analyzer/map_materialize.rs:174-194 | A technology is there exactly for each submitted one that binds, with its name, role and evidence. |
| `MapBuild.KeepEntryPoints` | crates/codecaddie-core/src/analyzer/map_materialize.rs:196-218 | Of the first 24 entry points exactly those with a known component and bound evidence are kept and numbered, and each other one is named in a warning that says why. |
| `MapBuild.EntryPointsAreSound` | crates/codecaddie-core/src/analyzer/map_materialize.rs:196-218 | Every entry point names an indexed component and carries evidence. |
| `MapProvenance.EntryPointsComeFrom` | crates/codecaddie-core/src/analyzer/map_materialize.rs:196-218 | Every entry point has the name, kind, component and evidence of a submitted one, and every submitted one with a known component and bound evidence is there. |
| `Sections.LimitedMeans` | crates/codecaddie-core/src/analyzer/map_materialize.rs:239-274 | A loop that leaves at a cap filters and truncates; every item is kept, warned about or passed over in silence; nothing is passed over exactly when the cap is not reached before the last item. |
| `MapBuild.AddInterfaces` | crates/codecaddie-core/src/analyzer/map_materialize.rs:239-257 | Keeps and warns exactly as the account of the list says, stopping at six interfaces. |
| `MapBuild.AddConcerns` | crates/codecaddie-core/src/analyzer/map_materialize.rs:258-274 | Keeps and warns exactly as the account of the list says, stopping at three concerns. |
| `MapBuild.AddEvidence` | crates/codecaddie-core/src/analyzer/map_materialize.rs:275-283 | The loop with its early exit adds as many new references as there is room for, in order of first mention. |
| `MapBuild.EvidenceIsMerged` | crates/codecaddie-core/src/analyzer/map_materialize.rs:275-283 | What is added is new, cited and never repeated; all of it is added exactly when it fits into six, and otherwise the six are used up. |
| `MapProvenance.EvidenceStopsAtSix` | crates/codecaddie-core/src/analyzer/map_materialize.rs:275-283 | No detail takes a component beyond six references. |
| `MapBuild.MergeDetail` | crates/codecaddie-core/src/analyzer/map_materialize.rs:227-284 | The component that the name index leads to is always found, so the `expect` never fires; the merge changes only interfaces, concerns and evidence, and gives exactly the warnings due. |
| `MapBuild.DetailReachesItsComponent` | crates/codecaddie-core/src/analyzer/map_materialize.rs:227-238 | With distinct ids, a detail is merged into the component of the name it gives. |
| `MapProvenance.DetailsComeFrom` | crates/codecaddie-core/src/analyzer/map_materialize.rs:227-284 | Details only add to the components they name, and only interfaces, concerns and references that they submit for them. |
| `MapProvenance.DetailsArrive` | crates/codecaddie-core/src/analyzer/map_materialize.rs:227-284 | All that a detail of a known name submits and that binds is in its component at the end, unless that list is full. |
| `MapBuild.SurveyedIdsAreDistinct` | crates/codecaddie-core/src/analyzer/map_materialize.rs:111-168 | Component ids are distinct when ids tell repositories and normalized names apart. |
| `MapBuild.AddRelationships` | crates/codecaddie-core/src/analyzer/map_materialize.rs:285-320 | The loop with its early exit keeps, warns and marks keys as taken exactly as the account of the list says. |
| `MapBuild.RelationshipsMean` | crates/codecaddie-core/src/analyzer/map_materialize.rs:285-320 | That account keeps the first 48 that resolve, are not repeated and bind; every relationship is kept, warned about or passed over; none is passed over exactly when the list fits and no resolvable triple repeats. |
| `MapBuild.RelationshipsAreSound` | crates/codecaddie-core/src/analyzer/map_materialize.rs:285-320 | Both ends are indexed components, (from, to, kind) triples are distinct, evidence is bound. |
| `MapProvenance.RelationshipsComeFrom` | crates/codecaddie-core/src/analyzer/map_materialize.rs:285-320 | Every relationship runs from the component its submission names first to the one it names second, with its kind, description and evidence. |
| `MapProvenance.FirstOfKeyIsKept` | crates/codecaddie-core/src/analyzer/map_materialize.rs:300-320 | The first submission of a (from, to, kind) triple is among those that survive before the cap if its citations bind. |
| `MapBuild.KeepSteps` | crates/codecaddie-core/src/analyzer/map_materialize.rs:326-340 | Keeps the resolvable steps among the first ten, and counts zero iff none is bound. |
| `MapBuild.AddFlows` | crates/codecaddie-core/src/analyzer/map_materialize.rs:321-353 | The loop with its early exit keeps the first eight flows that qualify and warns of exactly the others it looks at. |
| `MapBuild.FlowsAreSound` | crates/codecaddie-core/src/analyzer/map_materialize.rs:321-353 | Flows keep two to ten steps, all of indexed components, with some bound evidence. |
| `MapProvenance.FlowsComeFrom` | crates/codecaddie-core/src/analyzer/map_materialize.rs:321-353 | Every flow has the name, description and steps of a submitted one, and every submitted flow that qualifies is among those that survive before the cap. |
| `MapProvenance.StepsComeFrom` | crates/codecaddie-core/src/analyzer/map_materialize.rs:326-340 | The steps of a flow are exactly the submitted ones of known components, in order, each with its own component, action and evidence. |
| `MapProvenance.FlowComesFrom` | crates/codecaddie-core/src/analyzer/map_materialize.rs:326-345 | A flow qualifies exactly when two of its first ten steps are of known components and one of those has evidence that binds. |
| `MapBuild.MergeDives` | crates/codecaddie-core/src/analyzer/map_materialize.rs:224-354 | The nested loops over all deep dives equal one pass over their concatenated lists, and give exactly the warnings due, in order. |
| `MapBuild.Build` | crates/codecaddie-core/src/analyzer/map_materialize.rs:102-384 | The map is exactly what the survey and the deep dives stand for, with exactly the warnings due, and is well formed: references resolve, triples are distinct, evidence is bound and every cap holds. |
| `MapProvenance.MapComesFromSubmission` | crates/codecaddie-core/src/analyzer/map_materialize.rs:102-384 | Everything the built map says, in every section, is tied field by field to the submitted item it comes from. |
| `MapProvenance.DivesAreComplete` | crates/codecaddie-core/src/analyzer/map_materialize.rs:285-353 | What the deep dives submit arrives in the map: the first of each (from, to, kind) triple that binds unless there are 48 relationships, and each flow that qualifies unless there are eight. |
| `MapProvenance.CapsAre` | crates/codecaddie-domain/src/map.rs:16-24 | The caps in numbers, for every well-formed map. |
| `MapProvenance.WarningsAreDue` | crates/codecaddie-core/src/analyzer/map_materialize.rs:113-354 | No warning is given without a submitted item that deserves it. |
| `MapAccount.EveryItemIsAccountedFor` | crates/codecaddie-core/src/analyzer/map_materialize.rs:113-354 | Every submitted component, technology, entry point, detail, interface, concern, relationship, flow and step is held by the map, named in a warning, or passed over in silence: the counts add up. |
| `MapAccount.DetailsPassIff` | crates/codecaddie-core/src/analyzer/map_materialize.rs:227-284 | No interface or concern passes in silence exactly when, for every component, what all details submit for it stays within the caps. |
| `MapAccount.NoStepLostIff` | crates/codecaddie-core/src/analyzer/map_materialize.rs:328-340 | No step is lost exactly when every flow that qualifies has at most ten steps, all of known components. |
| `MapAccount.NothingIsSilentIff` | crates/codecaddie-core/src/analyzer/map_materialize.rs:1-5 | Every dropped item is named in a warning if and only if no list runs past its cap, no resolvable (from, to, kind) repeats and no kept flow loses a step. |
| `MapAccount.AnItemVanishes` | crates/codecaddie-core/src/analyzer/map_materialize.rs:300-302 | A survey and a deep dive with one relationship given twice: the map holds one, and no warning is given. |
| `Materialize.FrameKeepsWellFormed` | crates/codecaddie-core/src/analyzer/map_materialize.rs:386-394 | Well-formedness is a matter of structure, so screening cannot break it. |
| `Materialize.MaterializeCodebaseMap` | crates/codecaddie-core/src/analyzer/map_materialize.rs:87-395 | Whatever is handed on is well formed, differs from the built map in exactly the violating fields, and carries exactly the warnings of the build and of the screening. |
| `FrozenSets.SortedIsUnique` | crates/codecaddie-domain/src/map.rs:235-250 | A sorted list is determined by its elements with their multiplicities. |
| `FrozenSets.MatchesRepositories` | crates/codecaddie-domain/src/map.rs:235-250 | Sorting both sides decides equality as multisets. |
| `Crc32.BranchlessStepIsPolynomialStep` | crates/codecaddie-core/src/export.rs:404-413 | The branchless step equals the conditional polynomial step. |
| `Crc32.BitStepInjective` | crates/codecaddie-core/src/export.rs:404-413 | The step is injective on 32-bit registers. |
| `Crc32.EightSteps` | crates/codecaddie-core/src/export.rs:408-411 | The inner loop is eight polynomial steps. |
| `Crc32.Compute` | crates/codecaddie-core/src/export.rs:404-413 | The loop computes the checksum of the specification. |
| `Crc32.DifferenceSurvives` | crates/codecaddie-core/src/export.rs:404-413 | Different registers stay different whatever bytes follow. |
| `Crc32.OneByteChangeDetected` | crates/codecaddie-core/src/export.rs:404-413 | Inputs of equal length that differ in exactly one byte have different checksums. |
| `Crc32.CheckValue` | crates/codecaddie-core/src/export.rs:404-413 | The checksum of the nine characters "123456789" is 0xCBF43926, the check value of CRC-32. |
| `Zip.StoredZip` | crates/codecaddie-core/src/export.rs:343-394 | The writer produces exactly the specified archive. |
| `ZipLayout.LocalRecordIs` | crates/codecaddie-core/src/export.rs:349-361 | A file record byte by byte: "PK" 3 4, method, checksum, both sizes and the name length at their offsets, then the name at 30 and the data. |
| `ZipLayout.CentralRecordIs` | crates/codecaddie-core/src/export.rs:363-380 | A directory record byte by byte: "PK" 1 2, the same values, the offset of the file at 42 and the name at 46. |
| `ZipLayout.EndRecordIs` | crates/codecaddie-core/src/export.rs:382-393 | The end record byte by byte: "PK" 5 6, the count twice, the size of the directory and where it starts. |
| `ZipLayout.LowByteFirst` | crates/codecaddie-core/src/export.rs:396-402 | Two and four byte values are written low byte first. |
| `Zip.FieldIsAt` | crates/codecaddie-core/src/export.rs:349-393 | Each field of a record stands at the sum of the widths before it. |
| `Zip.FieldsRoundTrip` | crates/codecaddie-core/src/export.rs:396-402 | Fixed-width little-endian records decode to the values written. |
| `Zip.WalkFrom` | crates/codecaddie-core/src/export.rs:364-394 | From any entry on, walking the central directory and following each offset to its local header reads the remaining entries. |
| `Zip.ArchiveRoundTrip` | crates/codecaddie-core/src/export.rs:343-394 | A reader that starts at the end record recovers exactly the names and bytes, in order, for every list whose values fit their fields. |
| `Zip.RecoveredTotalsFit` | crates/codecaddie-core/src/export.rs:380-394 | A truncated directory offset or size makes the reader refuse the package. |
| `Zip.ArchiveRoundTripIff` | crates/codecaddie-core/src/export.rs:343-394 | The round trip succeeds if and only if every value fits its field. |
| `Zip.ExportedPackageRoundTrip` | crates/codecaddie-core/src/export.rs:343-394 | The round trip succeeds if and only if the count and every name are below 2^16 and the summed sizes of the files and of the directory are below 2^32. |
| `LineReader.NextChunk` | crates/codecaddie-core/src/mcp.rs:74-97 | Takes the next buffer up to a newline if it has one, and leaves exactly the rest. |
| `LineReader.ReadBoundedLine` | crates/codecaddie-core/src/mcp.rs:67-106 | One call consumes exactly one line, returns it iff its length is at most limit + 1, never holds more than limit + 1 bytes, and does not depend on the buffers. |
| `LineReader.ReadAll` | crates/codecaddie-core/src/mcp.rs:67-106 | Repeated calls yield the lines of the whole stream. |
| `LineReader.AllLinesReassemble` | crates/codecaddie-core/src/mcp.rs:67-106 | No byte is lost or read twice, and exactly the lines over the limit are replaced. |
| `LineReader.ReassemblyIsUnique` | crates/codecaddie-core/src/mcp.rs:67-106 | There is only one such cut. |

## Left out

- Cryptography, signature bytes, canonical JSON and key files: `verify` is a flag, the cipher a parameter with laws.
- Git, provider processes, HTTP, release verification, clipboard, permissions and the platform's rename flags.
- Power loss that reorders unsynced writes: a crash keeps what was written so far.
- Restoring a log exactly, and publishing a new file through a pending name (`write_private_atomic_new_with`).
- The rewrite of legacy plaintext session files during a read.
- The temporary sibling used while a log is rewritten: the rewrite is one rename, as in the state file model.
- Bodies of product and reliability records: their validation is a flag of the event. Decision-funnel and survey events, which leave the state alone, are one event.
- Rounding of floating-point numbers in scores: values are real.
- Removal of a snapshot directory is one step, and snapshot names and claim ids are never reused.
- Session markers, goal hashes and report materialization within a submission: a submission is accepted or rejected at any point.
- Failures of best-effort removals and renames other than the removal after a record.
- Evidence binding, component-id hashing, lower-casing and the Unicode alphanumeric class are arbitrary functions.
- The wording of warnings: each is a value that names what it is about.
- Choosing the newest map for a repository set, prompts, the Word document inside the exported package, and request dispatch.
