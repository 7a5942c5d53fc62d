# Verified models of task creation, spec repair and dispatch bookkeeping

The repository prepares task specs, dispatches agents on them and keeps the
bookkeeping around that. This project models the parts of it on which safety and
consistency rest, and proves what they promise. Each model follows the branches,
edge cases and constants of the code it cites.

| file | models |
|---|---|
| `Reservation.dfy`, `ReservationOwner.dfy`, `ReservationLimits.dfy`, `ReservationProgress.dfy` | the cross-process lock built from links, renames and unlinks, as a transition system in which every call that others can notice, or whose answer they can change, is a step and any process may die between two steps |
| `TaskCreation.dfy`, `Claimants.dfy`, `ClaimantIds.dfy` | which files own a task id, and creators that check and write under the lock |
| `RepairGuard.dfy`, `RepairMeaning.dfy`, `Alignment.dfy`, `Words.dfy` | the guard that accepts only additive repairs, over a greedy alignment, and what its verdicts mean for the lines |
| `SpecNormalizer.dfy`, `SpecFixes.dfy`, `SpecTokens.dfy`, `SpecTitles.dfy`, `SpecSections.dfy`, `SpecRounds.dfy`, `SpecDefaults.dfy`, `SpecLevels.dfy`, `SpecValues.dfy`, `SpecStability.dfy`, `SpecReturns.dfy`, `Lines.dfy`, `Text.dfy` | the parse-fix loop, every fix it applies, the placeholder marker, and line endings |
| `SpecGate.dfy`, `SpecGateShapes.dfy`, `SpecGateRuns.dfy`, `SpecGateLimits.dfy` | the gate that holds unfinished specs back, and what repairs do to it |
| `SyncMigration.dfy`, `SyncReport.dfy` | the eight-rule migration of the GitHub sync map |
| `SpecContract.dfy`, `SpecIdentity.dfy`, `SpecBookkeeping.dfy` | the scanner that defines a spec's contract, and the stamp that decides whether an artifact may be consumed |
| `TaskHygiene.dfy`, `HygieneLists.dfy`, `HygieneVerdicts.dfy`, `StableSort.dfy` | backlog hygiene in two phases against one pass |
| `Glob.dfy` | globs compiled to regular expressions, with a reader and a matcher for the emitted texts |
| `JsonScanner.dfy` | the brace scanner, against JSON texts |
| `Wave.dfy` | wave workers interleaved at their awaits |
| `Inbox.dfy` | the inbox poller under crashes and failures |
| `AdapterBundle.dfy`, `Json.dfy` | the shared hash of an adapter config |
| `Analytics.dfy` | run statistics, updated or rebuilt |

Where the code and its documentation disagree, the model follows the code:

- The comment in `src/core/repair-guard.ts:191-192` says an inserted blank must be
  next to something permitted; the code (197) permits every inserted blank.
- The reservation's restores use a rename that, on POSIX systems, replaces a file at
  the target. Mutual exclusion is proved for renames onto a vacant name, shown to
  fail for replacing ones by a concrete run, and proved for every run of the latter
  in which no restore replaces the record of a live attempt.
- The comment in `src/core/task-creation-reservation.ts:251-253` says that the
  request markers keep an owner whose record was moved aside from entering. An owner
  can be admitted and then lose its place, as two concrete runs show: after a
  reclaimer died with its request out, or after one gave up a restore because the
  name was taken. Exactly when this can happen is proved for every reachable state.
- The documentation of the gate (`src/core/spec-normalizer.ts:40-44`) says that TBD
  values of the envelope always need a human confirmation, and that no repair leg can
  produce a dispatchable spec past it. The priority and status fixes extract a leading
  token from such a value (`P1 - TBD`) and quote the rest in a note that the gate does
  not read; and the provenance line can cut a value off that continues on the line
  after its tag. What the gate loses is counted exactly for every run over a submission
  whose bullets end on their lines.
- A wave scheduler called with no parallelism returns only empty slots, over which
  the exit-code check passes. The command line refuses such a value, so only direct
  callers of the scheduler are concerned.
- An output that throws leaves its message marked as seen, so the running process
  does not deliver it again although it stays unread at the broker; the next process
  does.

Assumptions of the reservation model: a published record is complete; the comparison
of an owner token and the rename that follows it in `removeOwnedLock` are one step;
process ids are not reused; every age or clock comparison may come out either way.
Calls on files that no other process uses are merged with the step after them: the
staging file is written and linked in one step, and a status call goes with the
reading that follows it. Reading a record and probing its process are two steps; a
probe that directly precedes the removal of a marker is one step with it, which loses
nothing because a process that is dead stays dead.

Parameters: the hashes of `SpecIdentity` and `AdapterBundle` have no collisions,
and the order of keys and ids (`localeCompare`) is any total order. The Markdown
parser is a parameter of the normalizer: any function from line lists to success or
an error. Idempotence takes one that accepts a text whatever carriage returns stand at
the ends of its lines. The repository's parser is one: it trims every heading, section,
row and bullet that it reads (`src/core/task-parser.ts:224-226`, 256, 266-268, 509-511,
550, 577), and its one pattern over untrimmed text, for metadata fields (364), skips
blanks before a value and ends the value before a carriage return.

## Main results

Each of these spans a whole run, a whole text or two functions that must agree; the
other rows of the table below are the steps to them, their corollaries and limits,
or, as in `SpecIdentity`, case readings of one function.

- The lock: `MutualExclusionInEveryRun`, `OwnerKeepsItsPlaceExactly`,
  `AdmissionIsFinalExactly`, `ExclusionWhileOwnersAreSpared`, `LettingGoVacates`,
  `DeadLeaveNothingBlocking`, `LiveReclaimerKeepsOut`, `QuarantineIsSafe`,
  `OwnersStayUniqueInEveryRun`, `CheckPassesExactly`.
- Spec repair: `GuardAcceptsExactly`, `AcceptedKeepsTitles`, `ViolationsExactly`,
  `InsertionsAcceptedExactly`, `PaddingIsAccepted`, `ChainKeepsProtected`,
  `SpecRounds.ResolvedExactly`, `PriorityExactly`, `StatusExactly`, `ResolvedPriority`, `ResolvedStatus`,
  `ResolvedKeepsMarker`, `HeldBackExactly`, `GateLosesExactly`, `ResolvedKeepsGate`,
  `NormalizationIsIdempotent`.
- The sync map: `NothingIsLost`, `UnresolvedExactly`, `ActionsExactly`,
  `EverySurvivorOnce`, `MigratedIdsUniqueExactly`, `SecondMigrationIdleExactly`,
  `ThirdMigrationDoesNothing`, `MergeTargetIsKept`, `ScanOrderDoesNotMatter`.
- Spec identity: `ConsumableByLinesExactly`, `BulletWriteExactly`,
  `BookkeepingStaysConsumable`, `BookkeepingKeepsConsumable`, `AmendmentIsStale`, over
  `ExtractContract` and `HistoryKeepsContract`.
- Hygiene: `TwoPhaseRowsAreOnePassRows`, `TwoPhaseMapIsOnePassMap`, `ExcludedExactly`.
- Smaller algorithms: `CompiledGlobMatches`, `ObjectEndIsFound`, `EveryInterleaving`,
  `ResolvedExactly`, `EveryWaveEnds`, `AtLeastOnceDelivery`, `CallDeliversExactly`,
  `SharedHashEqualExactly`, `RebuildingIsUpdating`.

## Model

| member | source | states |
|---|---|---|
| `Reservation.MutualExclusionInEveryRun` | src/core/task-creation-reservation.ts:490-589 | in every run from an empty directory, with any number of contenders, reclaimers, reconcilers and deaths between any two file-system calls, no two live attempts are admitted, provided a restore never replaces a lock |
| `Reservation.NextKeepsInv` | src/core/task-creation-reservation.ts:196-385 | every step of acquire, reclaim, reconcile, release, start and death keeps: a live linked token is at the canonical name or in a quarantine, tokens and artifact ids are unique, and an admitted owner excludes rivals |
| `Reservation.NoRivalWithoutQuarantine` | src/core/task-creation-reservation.ts:529-589 | why admission is safe: an owner that sees no quarantine has its token at the canonical name, and no other live attempt can hold a token |
| `Reservation.LinkKeepsInv` | src/core/task-creation-reservation.ts:516-548 | the no-replace link adds an owner without disturbing the others |
| `Reservation.MovingAsideKeepsInv` | src/core/task-creation-reservation.ts:216-232 | renaming the canonical lock aside, whoever's it turns out to be, loses no live token |
| `Reservation.SettlingShape` | src/core/task-creation-reservation.ts:233-274 | a reclaimer that settles deletes exactly the record it observed dead, or puts another one back only onto a vacant name, or changes only markers |
| `Reservation.OnlyTheActorMoves` | src/core/task-creation-reservation.ts:196-589 | a step of one attempt changes no other attempt's place |
| `ReservationOwner.OwnerKeepsItsPlaceExactly` | src/core/task-creation-reservation.ts:196-385 | in every reachable state, whatever died or was abandoned before or dies after, a live owner's record stays at the canonical name as long as the owner has its token exactly when it is there and no live reclaimer threatens it: none is about to rename, and none is about to probe a record of another process that may yet die |
| `ReservationOwner.AdmissionIsFinalExactly` | src/core/task-creation-reservation.ts:549-565 | at its admission an owner's record is always at the canonical name, and it stays there until the owner releases it exactly when no live reclaimer threatens it then |
| `ReservationOwner.OwnerFindsItsRecord` | src/core/task-creation-reservation.ts:204-214 | in particular, in every run in which no process dies with a reclaim request out and no reclaimer abandons its quarantine, an admitted owner is never threatened and its record is at the canonical name |
| `ReservationOwner.ClearedStayUndisputed` | src/core/task-creation-reservation.ts:549-589 | in such runs every step keeps an owner that has read an empty request list in place and unthreatened |
| `ReservationLimits.ReplacingRestoreAdmitsTwo` | src/core/task-creation-reservation.ts:251-264 | a concrete run in which nobody dies with a request out: with a rename that replaces its target, two live attempts are admitted |
| `ReservationLimits.ExclusionWhileOwnersAreSpared` | src/core/task-creation-reservation.ts:251-264 | with such renames, exclusion still holds of every run in which no restore replaces the record of a live attempt |
| `ReservationLimits.ReplacingKeepsInvExactly` | src/core/task-creation-reservation.ts:251-264 | why: a restore onto a taken name keeps the invariant exactly when no live attempt holds the record it replaces |
| `ReservationLimits.ReplacedRecordIsLost` | src/core/task-creation-reservation.ts:251-264 | after a restore that replaces a record, no run, whatever it does, brings that record back to the canonical name or into a quarantine |
| `ReservationLimits.LostOwnerIsNotAlone` | src/core/task-creation-reservation.ts:549-573 | an owner whose record is lost and that is not withdrawing is joined by a second admitted one in some run without any further replacing restore, from every state without requests and quarantines, unless the canonical name holds another record of its process |
| `ReservationLimits.AdmittedRecordCanBeMoved` | src/core/task-creation-reservation.ts:326-385 | a concrete run: a reclaimer that dies with its request out can cost an admitted live owner its place at the canonical name |
| `ReservationLimits.AbandonedRecordCanBeMoved` | src/core/task-creation-reservation.ts:254-264 | another, in which nobody dies with a request out: a reclaimer that finds its restore target taken and leaves its quarantine behind can cost an admitted live owner its place |
| `ReservationProgress.LettingGoVacates` | src/core/task-creation-reservation.ts:122-164 | in every reachable state an attempt that gives up its token (a release, a withdrawal, or a link given up) can do so; if its record is at the canonical name, the name is vacant afterwards and in no continuation does the record come back there or into a quarantine; if it is not, no other record is touched |
| `ReservationProgress.ReleaseVacates` | src/core/task-creation-reservation.ts:570-576 | so in every undisturbed run the release of an admitted owner vacates the canonical name for good and ends its attempt |
| `ReservationProgress.DeadLeaveNothingBlocking` | src/core/task-creation-reservation.ts:326-385 | from every state in which all that is on disk was left by dead processes, a new attempt of a live one removes the requests, the quarantines and the lock and is admitted, by its own steps alone, and then its record is all there is |
| `ReservationProgress.NoStateIsStuck` | src/core/task-creation-reservation.ts:490-589 | from every state, reachable or not, and with either kind of rename, some run admits a new attempt |
| `ReservationProgress.LiveReclaimerKeepsOut` | src/core/task-creation-reservation.ts:204-214 | in every run, from a live reclaimer's request until it takes its next step or dies, no attempt links that has still to read the request list, and none is admitted that has still to read it again, however long the others go on |
| `ReservationProgress.QuarantineKeepsOut` | src/core/task-creation-reservation.ts:380-385 | while some quarantine is there, no attempt links that has still to read the quarantine list, and none is admitted that was not |
| `ReservationProgress.QuarantineIsSafe` | src/core/task-creation-reservation.ts:344-375 | in every run a quarantine is left alone by all but the reclaimer that made it as long as its request is on disk; after that it is only restored or, when both that reclaimer and the owner of the record have died, removed |
| `ReservationProgress.EveryAttemptCanStep` | src/core/task-creation-reservation.ts:490-589 | in every state, whatever the other attempts have done, a live attempt that has not ended can take a step |
| `ReservationProgress.VanishedQuarantine` | src/core/task-creation-reservation.ts:225-267 | a reclaimer whose quarantine has vanished takes its request back and tries again, except where it was about to restore it: then it gives up |
| `TaskCreation.OwnersStayUniqueInEveryRun` | src/core/task-creation-reservation.ts:596-697 | creators that scan, check and write under the reservation, interleaved with each other, reclaimers and deaths, never give an id a second owning file |
| `TaskCreation.EventKeepsInv` | src/core/task-creation-reservation.ts:596-670 | every event keeps what a holder's scan and check established true until it has settled |
| `TaskCreation.AssertTaskCreationIdsAvailable` | src/core/task-creation-reservation.ts:684-697 | refuses exactly when some planned id is declared by another file, and reports every such id with its other owners, sorted |
| `TaskCreation.ConflictsExactly` | src/core/task-creation-reservation.ts:684-697 | every conflict names the normalized id of a planned file and, sorted, exactly the other files that declare it, and every planned id that another file declares has one |
| `TaskCreation.CheckPassesExactly` | src/core/task-creation-reservation.ts:596-670 | in every run a holder's check lets it write exactly when, at that moment, no other file on disk has one of its planned ids; otherwise its work ends without a write |
| `TaskCreation.WritersFinish` | src/core/task-creation-reservation.ts:596-670 | in every run a holder with nothing left to write has all its planned files on disk, each with its planned id |
| `TaskCreation.ReleasesSettled` | src/core/task-creation-reservation.ts:606-626 | an admitted holder takes its release step only when its operation has finished or failed |
| `TaskCreation.FailureEndsWork` | src/core/task-creation-reservation.ts:606-626 | the operation can fail at any time while the reservation is held; what it has written stays, and in no continuation does it write again |
| `TaskCreation.RivalsNone` | src/core/task-creation-reservation.ts:684-697 | a planned id has no rivals exactly when every file that declares it, in normalized form, is the planned file |
| `TaskCreation.StrictIndexIndexes` | src/core/duplicate-claimants.ts:24-53 | the strict index that the check is given lists, under each normalized id, exactly the files that declare it |
| `TaskCreation.BatchIsNotComparedWithItself` | src/core/task-creation-reservation.ts:684-697 | the check does not see two planned files of one batch that declare the same id |
| `Claimants.NormalizedIsCanonical` | src/core/duplicate-claimants.ts:76-79 | normalizing an id twice is normalizing it once, for every text |
| `Claimants.HeadingIdsAreCanonical` | src/core/task-parser.ts:199-217 | every id that a task heading can declare is in normalized form |
| `ClaimantIds.SpellingsAgree` | src/core/duplicate-claimants.ts:76-79 | ids that differ only in letter case and in the blanks around them are normalized alike, for every text |
| `ClaimantIds.IdIsFound` | src/core/duplicate-claimants.ts:76-79 | an id of digits is found in any text that it stands in as a word, in any letter case, if no other id can begin before it |
| `Claimants.ClaimantCount` | src/core/duplicate-claimants.ts:85-98 | an id has a claimant, or two, exactly when one or two declarations name it |
| `Claimants.GroupTaskClaimantsByDeclaredId` | src/core/duplicate-claimants.ts:85-98 | the map has an entry for exactly the declared ids, with their files in order of encounter |
| `Claimants.BuildStrictTaskClaimantIndex` | src/core/duplicate-claimants.ts:24-53 | a scan that fails, or cannot be made, gives its reason; any other gives every declared id, normalized, with its files in sorted order |
| `Claimants.BuildStrictDuplicateClaimantIndex` | src/core/duplicate-claimants.ts:55-74 | the contested ids are exactly the normalized ids with more than one claimant, each with its files in sorted order; a scan that fails is reported as a duplicate scan |
| `Claimants.ScanOrderDoesNotMatter` | src/core/duplicate-claimants.ts:35-47 | two scans that list the same declarations in different orders give the same claimants, in the same order, and contest the same ids |
| `Alignment.GreedyEmbeds` | src/core/repair-guard.ts:193-204 | the greedy alignment is a strictly increasing, content-identical map |
| `Alignment.GreedyFindsAll` | src/core/repair-guard.ts:193-204 | leftmost matching matches everything whenever some order-preserving match does |
| `Alignment.UnmatchedIsInserted` | src/core/repair-guard.ts:193-222 | what leftmost matching leaves unmatched is, as a multiset, what was inserted |
| `Alignment.ReportIsEmptyExactly` | src/core/repair-guard.ts:193-255 | the interleaved report is empty exactly when nothing is said about any unmatched line on either side |
| `Alignment.InReportExactly` | src/core/repair-guard.ts:193-255 | the report says exactly what is said about an unmatched line |
| `RepairGuard.Annotate` | src/core/repair-guard.ts:95-104 | the section flag the loop carries is the nearest heading at or above each line |
| `RepairGuard.VerifyRepairIsAdditive` | src/core/repair-guard.ts:138-255 | the loops report the violations of the alignment, in order, and accept exactly when there are none |
| `RepairGuard.AcceptsExactly` | src/core/repair-guard.ts:138-255 | a repair is accepted exactly when its own alignment leaves nothing unexplained |
| `RepairGuard.AcceptedIsAdditive` | src/core/repair-guard.ts:138-255 | soundness: an accepted repair embeds the original; every line it lost is a reformatted H1 or a marked or noted envelope bullet of Metadata, every line it gained is a permitted insertion |
| `RepairMeaning.SameTitleExactly` | src/core/repair-guard.ts:143-148 | two titles count as the same exactly when they have the same words, longest runs of ASCII letters and digits, in the same order, whatever the letter case and whatever stands between them |
| `RepairMeaning.HeadingNameExactly` | src/core/repair-guard.ts:57-64 | the name of a heading is a given list of lower-case words exactly when these are its words up to the first parenthesis, colon or dash, whatever the letter case and the blanks between them |
| `RepairMeaning.LineShapes` | src/core/repair-guard.ts:66-76 | blank lines, titles, headings and the bullets of a field are recognized by exactly their shape |
| `RepairMeaning.PlaceholderExactly` | src/core/repair-guard.ts:78-85 | a placeholder is exactly a line with the marker that is a title or a `TBD` item, with or without a checkbox |
| `RepairMeaning.InsideExactly` | src/core/repair-guard.ts:95-104 | a line is inside Metadata exactly when the last heading at or above it is one |
| `RepairMeaning.GuardAcceptsExactly` | src/core/repair-guard.ts:138-255 | for every pair of texts: accepted exactly when every original line that the alignment leaves over is a title whose words are still in some title, or a priority, effort or status bullet of Metadata whose first successor is marked or noted, and every repaired line left over is blank, a placeholder, a note or an accounted envelope bullet of Metadata, one of four canonical headings that the original lacks, or a title that has the words of an original one or is the first |
| `RepairMeaning.AcceptedKeepsTitles` | src/core/repair-guard.ts:183-187 | an accepted repair retitles nothing: every original title is there with the same words, and a title beside them that is no placeholder has an original's words |
| `RepairMeaning.ViolationsExactly` | src/core/repair-guard.ts:193-254 | the report names exactly the left-over lines that may not be gone or may not be there, each with the kind of its violation |
| `RepairGuard.InsertionsAcceptedExactly` | src/core/repair-guard.ts:193-222 | a text that keeps every original line, in order, is accepted exactly when each line that the alignment leaves over may be inserted where it is; these lines are, as a multiset, what was inserted |
| `RepairGuard.InsertedLinesDecide` | src/core/repair-guard.ts:193-222 | when no metadata bullet but placeholders is inserted, places do not matter: it is accepted exactly when each inserted line is permitted |
| `RepairGuard.PaddingIsAccepted` | src/core/repair-guard.ts:80-87 | completeness: inserting blank lines and narrow placeholder lines, or nothing, is always accepted |
| `RepairGuard.RepairKeepsProtected` | src/core/repair-guard.ts:206-252 | an accepted repair keeps all protected lines, identical and in order |
| `RepairGuard.ChainKeepsProtected` | src/core/repair-guard.ts:66-78 | so does any chain of accepted repairs |
| `RepairGuard.PastedBulletCanBeLaundered` | src/core/repair-guard.ts:106-108 | what a chain does not keep: a bullet of envelope shape outside Metadata, once a first repair inserts a Metadata heading above it |
| `Lines.LfAfterCrlf` | src/core/spec-normalizer.ts:576-578 | normalizing line ends undoes restoring CRLF, for every text |
| `Lines.LfSplitsAlike` | src/core/spec-normalizer.ts:116-120 | normalizing line ends leaves the lines as they are exactly when no line but the last ends in two carriage returns |
| `Lines.CrlfSplitsAlike` | src/core/spec-normalizer.ts:576-578 | turning line ends into CRLF leaves the lines as they are exactly when none of them is CRLF already |
| `SpecFixes.RewriteStaysInMetadata` | src/core/spec-normalizer.ts:378-409 | rewriting a value replaces one line below the Metadata heading, before the next H2, and adds at most its note |
| `SpecSections.MetadataHeadingExactly` | src/core/spec-normalizer.ts:268-282 | the Metadata heading is recognized exactly by its words, in any letter case and spacing: two hashes and `metadata`, alone, before a colon, or before a word that begins with a parenthesis or a dash |
| `SpecFixes.PriorityFixKeepsMarker` | src/core/spec-normalizer.ts:423-458 | the priority rewrite keeps a placeholder marker, or leaves one when it defaults |
| `SpecFixes.StatusFixKeepsMarker` | src/core/spec-normalizer.ts:460-509 | the status rewrite keeps a placeholder marker |
| `SpecFixes.SeparatorFixKeepsMarker` | src/core/spec-normalizer.ts:251-267 | the H1 separator rewrite keeps a placeholder marker in the heading and elsewhere |
| `SpecTitles.SeparatorKeepsTitle` | src/core/spec-normalizer.ts:251-266 | the H1 separator rewrite replaces the first title by the id, a colon and the rest, with the same words, so that the guard takes it for the same title |
| `SpecTitles.SeparatorFixAppliesExactly` | src/core/spec-normalizer.ts:251-266 | it applies exactly when the first title is a hash, an id (`TASK-` and digits, with or without a dash and a capital, or `SAURUS-REM-` and three digits), blanks, and a title that does not begin with a colon or a dash, unless more than one blank stands before it |
| `SpecTokens.TokenExactly` | src/core/spec-normalizer.ts:355-372 | for every list of names: a value becomes what the longest name that leads it stands for, and nothing exactly when no name leads it; a name leads a value that begins with it, in any letter case, followed by nothing, a separator or a date |
| `SpecTokens.PriorityExactly` | src/core/spec-normalizer.ts:89-102 | for every raw value, the extracted priority is a level exactly when the longest name that leads the value is one of that level's, the names of the four levels being listed |
| `SpecTokens.NormalizeStatusExactly` | src/core/task-status.ts:18-37 | the parser takes a value for a status exactly when it is one of the listed names, in any letter case and with or without one annotation in parentheses |
| `SpecTokens.StatusExactly` | src/core/spec-normalizer.ts:460-509 | a value that the parser does not take becomes a status exactly when the longest name that leads it, of the listed names and aliases, is one of that status |
| `SpecDefaults.MissingPriorityIsSupplied` | src/core/spec-normalizer.ts:168-176 | after the fix for a missing priority the section has the priority P2-MEDIUM |
| `SpecDefaults.MissingEffortIsSupplied` | src/core/spec-normalizer.ts:181-190 | after the fix for a missing effort it has the effort TBD with the placeholder marker |
| `SpecDefaults.MissingStatusIsSupplied` | src/core/spec-normalizer.ts:191-200 | after the fix for a missing status it has the status BACKLOG |
| `SpecDefaults.UnrecognizedPriority` | src/core/spec-normalizer.ts:445-457 | a priority without a token becomes P2-MEDIUM, and the submitted text stays in the note |
| `SpecDefaults.TitleIsSupplied` | src/core/spec-normalizer.ts:236-249 | a spec without a title gets one, with the task's id and the marker, before its lines |
| `SpecDefaults.TitleOnlyWhereMissing` | src/core/spec-normalizer.ts:241-246 | and it gets one exactly where no line is a title and the task's id is known |
| `SpecDefaults.SectionIsSupplied` | src/core/spec-normalizer.ts:511-521 | a missing section is appended behind the text without its trailing blanks, with its heading and a placeholder |
| `SpecDefaults.PhraseDecides` | src/core/spec-normalizer.ts:156-232 | a message with one of the parser's ten phrases calls for the fix of that phrase, and one with none for no fix |
| `SpecNormalizer.NormalizeSpec` | src/core/spec-normalizer.ts:114-150 | the parse-fix loop, with its repeated-error and iteration limits, computes the specified result |
| `SpecRounds.ResolvedExactly` | src/core/spec-normalizer.ts:104-150 | for every parser: a submission is resolved exactly when it parses after fewer than twelve fixes, none of which leaves the error as it was, and the result, with its provenance, passes the guard and parses |
| `SpecRounds.ProvenanceRecords` | src/core/spec-normalizer.ts:525-535 | a repair of a text with a Metadata section adds one line, the provenance with the date and the key of every action taken |
| `SpecNormalizer.AllOrNothing` | src/core/spec-normalizer.ts:537-589 | an unchanged result is the submission itself; a changed one is resolved, parses and passed the guard before its line ends were restored, and keeps all protected lines |
| `SpecNormalizer.FixKeepsMarker` | src/core/spec-normalizer.ts:156-342 | every fix keeps a marker that is there, and every fix that invents a value leaves one |
| `SpecNormalizer.RoundsKeepMarker` | src/core/spec-normalizer.ts:124-147 | over any number of rounds a marker stays, and an invented value has left one |
| `SpecNormalizer.ResolvedKeepsMarker` | src/core/spec-normalizer.ts:45-47 | a resolved repair of a marked submission, or one with invented values, still holds the marker, after provenance and line ends: it is never silently dispatchable |
| `SpecLevels.ExtractionValue` | src/core/spec-normalizer.ts:423-443 | after a priority was extracted the section holds exactly the extracted level, and the status it had |
| `SpecLevels.StatusValue` | src/core/spec-normalizer.ts:485-503 | after a status was normalized it holds exactly the recognized status, and the priority it had |
| `SpecValues.ResolvedPriority` | src/core/spec-normalizer.ts:423-447 | for every parser and every submission without stray line terminators in its lines: in a resolved repair, whatever else it fixed, after provenance and line ends, an extracted priority is the level whose name, of all names that lead the submitted value, is the longest, and a priority that was not extracted is the submitted one, unless the priority or the Metadata section was itself supplied |
| `SpecValues.ResolvedStatus` | src/core/spec-normalizer.ts:460-509 | the same of the status |
| `SpecGateRuns.MarkedIsHeldBack` | src/core/spec-normalizer.ts:45-55 | a resolved repair of a marked submission, or one with invented values, is held back, after provenance and line ends: it is never silently dispatchable |
| `SpecGate.FoundByLine` | src/core/spec-normalizer.ts:48-53 | where every bullet ends on its line, the pattern over the whole text finds exactly the tentative values of single lines |
| `SpecGateShapes.TentativeExactly` | src/core/spec-normalizer.ts:51-52 | a value is tentative exactly when it has TBD as a word, at the start or after whitespace, or `placeholder` anywhere, in any letter case |
| `SpecGateShapes.HeldBackExactly` | src/core/spec-normalizer.ts:45-55 | where every bullet ends on its line, a spec is held back exactly when it has the marker, or a priority, effort or status bullet, in any letter case, with such a value |
| `SpecGate.CrlfKeepsTexts` | src/core/spec-normalizer.ts:48-53 | restoring CRLF does not change what the pattern finds, for every text |
| `SpecGateRuns.GateLosesExactly` | src/core/spec-normalizer.ts:45-55 | for every parser and every submission whose bullets end on their lines: a resolved repair that invents nothing has as many tentative envelope values as the submission, less exactly those from which a fix extracted a token, and it extracts only from values that hold one |
| `SpecGateRuns.ResolvedKeepsGate` | src/core/spec-normalizer.ts:40-55 | so a submission that is held back is still held back when resolved, if no TBD or placeholder follows a priority or status token that a fix would extract |
| `SpecGateLimits.TentativeTokenLosesItsGate` | src/core/spec-normalizer.ts:423-458 | otherwise it need not be: in every ordinary spec whose one tentative value is a priority that begins with a token, once the parser reports that priority as invalid and accepts the token, the resolved result is held back no more |
| `SpecGateLimits.SuchAValueExists` | src/core/spec-normalizer.ts:89-102 | such a priority is `P1 - TBD`, from which `P1-HIGH` is extracted |
| `SpecGateLimits.WrappedValueIsCutOff` | src/core/spec-normalizer.ts:525-535 | a tentative value on the line after its tag is found in the submission, and not found any more when the provenance line has been put between the two |
| `SpecStability.UnchangedExactly` | src/core/spec-normalizer.ts:114-150 | a text is left as it is exactly when it parses as the normalizer reads it |
| `SpecStability.NormalizationIsIdempotent` | src/core/spec-normalizer.ts:114-150 | normalizing a resolved result again reports no change: for every submission, all options, and every parser that does not look at carriage returns at the ends of lines, as the repository's does not |
| `Lines.LfSplitsAlmostAlike` | src/core/spec-normalizer.ts:118-120 | why: normalizing the line ends of any text leaves its lines as they are, up to carriage returns at their ends |
| `SpecReturns.StableExactly` | src/core/spec-normalizer.ts:576-579 | what the hypothesis on the parser is for: over all parsers whatsoever, LF submissions that end in exactly k carriage returns are always normalized to a fixed point exactly when k is at most one |
| `SyncMigration.MigrateGitHubSyncMap` | src/cli/migrate-github-sync-map.ts:211-326 | a failed claimant scan refuses the migration; otherwise the indexes, the duplicate pass, the rule cascade and the sorting of the report compute the specified migration |
| `SyncMigration.ReportIsSorted` | src/cli/migrate-github-sync-map.ts:166-177 | the report lists every action and every unresolved entry once, in the order of rule, task id, issue number and serialized entry |
| `SyncReport.UnresolvedExactly` | src/cli/migrate-github-sync-map.ts:257-322 | an entry is reported as unresolved exactly when it survives and is contested (with the contested id and its sorted claimants), or is undeclared and its file declares an id that a survivor with another issue number has (with that number), or declares none, by whether the file exists |
| `SyncReport.ActionsExactly` | src/cli/migrate-github-sync-map.ts:246-304 | the actions are exactly the raw duplicates, and, for undeclared survivors whose file declares an id, the rewrite to an id that no survivor has or the merge into one with the same issue number |
| `SyncReport.EverySurvivorOnce` | src/cli/migrate-github-sync-map.ts:257-323 | every survivor is left unresolved, moved by one action, or kept in silence because its id is declared and not contested, and only one of these; the unresolved ones are listed once each, in map order |
| `SyncReport.SortedReportExactly` | src/cli/migrate-github-sync-map.ts:325-326 | the sorted report names the same unresolved entries |
| `SyncReport.ReportFollowsRules` | src/cli/migrate-github-sync-map.ts:166-177 | of two items of the report the earlier has the lower rule number, or the same and the smaller id, issue number or serialized entry, in this order |
| `SyncMigration.DecideEntry` | src/cli/migrate-github-sync-map.ts:248-318 | the cascade over the four indexes decides as the rules over inventory and survivors do |
| `SyncMigration.NothingIsLost` | src/cli/migrate-github-sync-map.ts:236-323 | every raw entry is the source of exactly one output, in map order, or is named by exactly one rule-1 or rule-5 action |
| `SyncMigration.MigratedIdsUniqueExactly` | src/cli/migrate-github-sync-map.ts:262-323 | migrated ids are unique exactly when no two survivors are rewritten to one id |
| `SyncMigration.MigratedIdsUnique` | src/cli/migrate-github-sync-map.ts:211-228 | with canonical declared ids they always are, because the contested index is keyed by normalized ids |
| `SyncMigration.HeadingsMigrateUniquely` | src/core/task-parser.ts:199-217 | so they are for every id that a task heading can declare |
| `SyncMigration.UncanonicalIdsCollide` | src/cli/migrate-github-sync-map.ts:252-290 | two files that declare one uncanonical id are not seen to contest it, and both entries are rewritten to it |
| `SyncMigration.MergeTargetIsKept` | src/cli/migrate-github-sync-map.ts:291-299 | what an entry was merged into is itself in the migrated map, with the same issue number |
| `SyncMigration.SecondMigrationIdleExactly` | src/cli/migrate-github-sync-map.ts:236-323 | for every inventory: migrating the migrated map again takes no action, and leaves it, exactly when no two surviving entries of the first map were rewritten to one id, which is when the migrated ids are unique |
| `SyncMigration.SecondMigrationDoesNothing` | src/cli/migrate-github-sync-map.ts:236-323 | in particular, with canonical declared ids it never does anything |
| `SyncMigration.ThirdMigrationDoesNothing` | src/cli/migrate-github-sync-map.ts:236-323 | whatever ids are declared, a third migration takes no action: the second has removed what the first made collide and rewrites nothing |
| `SpecContract.StateMeans` | src/core/spec-identity.ts:148-172 | the scanner's two flags mean: an odd number of fences so far, and the last unfenced heading is Metadata |
| `SpecBookkeeping.BookkeepingExactly` | src/core/spec-identity.ts:52-69 | a line is operational exactly when it names Status, Status-Note or Repaired in bold, with or without a dash |
| `SpecBookkeeping.FenceExactly` | src/core/spec-identity.ts:73-73 | a fence is exactly a line that begins with three backquotes or tildes, after whitespace |
| `SpecBookkeeping.HeadingExactly` | src/core/spec-identity.ts:72-72 | a heading is exactly whitespace, one to six hashes, and whitespace before a title |
| `SpecBookkeeping.MetadataExactly` | src/core/spec-identity.ts:71-71 | a Metadata heading is exactly one whose title is that word, in any letter case |
| `SpecBookkeeping.OpenExactly` | src/core/spec-identity.ts:122-139 | the scanner takes bookkeeping out exactly behind lines with an even number of fences of which the last heading outside fences is a Metadata heading |
| `SpecContract.ExtractContract` | src/core/spec-identity.ts:146-178 | the scanner keeps exactly the lines that are not operational ones under Metadata outside fences, and drops the blank tail |
| `SpecContract.BookkeepingKeepsContract` | src/core/spec-identity.ts:153-174 | adding, deleting or rewriting an operational line of the Metadata section leaves the contract, wherever the line is |
| `SpecContract.HistoryKeepsContract` | src/core/spec-identity.ts:153-174 | so does any history of such writes |
| `SpecContract.AmendmentMovesContract` | src/core/spec-identity.ts:153-174 | rewriting a kept line into another kept one, beyond trailing blanks, moves the contract, also for lines shaped like bookkeeping outside the section or inside a fence |
| `SpecContract.ContractsEqualExactly` | src/core/spec-identity.ts:146-178 | contracts are equal exactly when the kept lines are, up to trailing blanks and the blank tail |
| `SpecContract.LineEndingsKeepContract` | src/core/spec-identity.ts:151-151 | turning line ends into CRLF keeps the contract of a text that has none, turning CRLF into LF that of a text without a line that ends in two carriage returns, and there and back that of every text |
| `SpecIdentity.ConsumableExactly` | src/core/spec-identity.ts:285-466 | for every stored JSON value: consumable exactly when it predates stamping, or both sides are well formed, agree, and the record names no other source; never when contested |
| `SpecIdentity.StampConsumableExactly` | src/core/spec-identity.ts:185-215 | a stamped record is consumable exactly when the contracts in hand, stamped and current coincide |
| `SpecIdentity.AuditDecidesNothing` | src/core/spec-identity.ts:315-334 | audit and enriched hashes, however malformed, never change whether a record is consumable |
| `SpecIdentity.OperationalOnlyExactly` | src/core/spec-identity.ts:441-453 | the operational-only flag is set exactly when the contract matches and the bytes do not |
| `SpecIdentity.BookkeepingKeepsConsumable` | src/core/spec-identity.ts:36-66 | any history of bookkeeping writes leaves a stamped artifact consumable |
| `SpecIdentity.AmendmentIsStale` | src/core/spec-identity.ts:431-440 | a real amendment of one kept line makes it stale |
| `SpecBookkeeping.BookkeepingStaysConsumable` | src/core/spec-identity.ts:36-66 | replacing any Status, Status-Note and Repaired bullets of an open Metadata section by any others, of any number, leaves an artifact stamped before consumable after |
| `SpecBookkeeping.BulletIsBookkeepingExactly` | src/core/spec-identity.ts:52-69 | of all bullets whose field has no colon, exactly those of Status, Status-Note and Repaired are bookkeeping |
| `SpecBookkeeping.BulletWriteExactly` | src/core/spec-identity.ts:431-453 | the verdict after a bullet of any field was rewritten to any value, in whatever surroundings: it matches exactly when the field is one of these three and the section is an open Metadata section, or the values differ only in blanks at the end; otherwise the artifact is stale |
| `SpecIdentity.RefusalsExactly` | src/core/spec-identity.ts:285-466 | which verdict refuses a record, whatever it holds: contested, legacy, unverifiable, diverged and stale each have their exact condition |
| `SpecIdentity.StampRecords` | src/core/spec-identity.ts:185-215 | a stamp records the hashes of the contract, of the exact text, and of the contracts in hand and as enriched, where they are given |
| `SpecIdentity.InHandCheckExactly` | src/core/spec-identity.ts:631-639 | the check before a build passes exactly when a record stamped from that build would not be born diverged |
| `SpecIdentity.ConsumableByLinesExactly` | src/core/spec-identity.ts:146-215 | for any three texts: an artifact built from one and stamped with another is consumable under the third exactly when all three keep the same lines, up to blanks at line ends and blank lines at the end |
| `StableSort.SortedIsDetermined` | src/core/task-hygiene.ts:255-256 | a list sorted by a total order is determined by its elements of each key |
| `TaskHygiene.BuildStructuralBacklogHygieneReport` | src/core/task-hygiene.ts:233-271 | phase one builds the specified rows and map, the last file of an id winning in the map |
| `HygieneLists.DuplicateIdsExactly` | src/core/task-hygiene.ts:218-231 | the report lists every id that several files declare, once and with its sorted files, and no other id |
| `HygieneLists.SupersededExactly` | src/core/task-hygiene.ts:242-258 | the report has an entry of its own for every superseded file, also of a duplicated id, in file order per id |
| `TaskHygiene.ApplyResolvedStatusHygiene` | src/core/task-hygiene.ts:311-376 | the three loops, with per-id cursors, compute the specified fold of resolved statuses |
| `TaskHygiene.FoldedOfId` | src/core/task-hygiene.ts:336-357 | the cursors pair the k-th row of an id with the k-th input of that id |
| `TaskHygiene.BlockedRows` | src/core/task-hygiene.ts:336-357 | an id that some file blocks has a row for each of its files, and folding its inputs in gives the one-pass rows |
| `TaskHygiene.UnblockedRows` | src/core/task-hygiene.ts:359-370 | an id that no file blocks gets the rows its status alone makes |
| `TaskHygiene.TwoPhaseRowsAreOnePassRows` | src/core/task-hygiene.ts:184-192 | the two phases give the sorted rows of evaluating every source once with its resolved status, duplicate ids included |
| `TaskHygiene.TwoPhaseMapIsOnePassMap` | src/core/task-hygiene.ts:323-334 | and the same map by id |
| `HygieneVerdicts.ExcludedExactly` | src/core/task-hygiene.ts:233-376 | the two phases report a row for a task file exactly when its id is declared twice, it is superseded, or its resolved status is ON_HOLD or REJECTED; the row gives exactly these reasons, in this order, and the resolved status where it changed and has a canonical form |
| `HygieneVerdicts.BlockedExactly` | src/core/task-hygiene.ts:311-334 | dispatch is blocked for an id exactly when the last file that declares it has such a reason |
| `Glob.GlobToRegex` | src/context/repo-map.ts:56-88 | the loop emits the specified expression text |
| `Glob.EmittedTextParses` | src/context/repo-map.ts:56-88 | for patterns whose other characters are no metacharacters, the emitted text reads back as the expression that is meant |
| `Glob.CompiledGlobMatches` | src/context/repo-map.ts:56-98 | compiled, read back and matched as a whole, such a pattern accepts a path without line terminators exactly when a direct matcher does |
| `Glob.LeadingDeepDirectory` | src/context/repo-map.ts:61-69 | a leading double star and slash skips zero or more whole segments of a path that does not start with a slash |
| `Glob.LeadingSlashIsNotSkipped` | src/context/repo-map.ts:66-66 | of a path that does, it does not skip the empty segment |
| `Glob.MatchesAnyPattern` | src/context/repo-map.ts:90-98 | true exactly when some pattern matches before the engine throws, false exactly when none does and it never throws |
| `Glob.PlainPatternsAreAnswered` | src/context/repo-map.ts:87-98 | an engine that follows the expressions' meaning never throws for a pattern without other metacharacters, and answers as the direct matcher does |
| `JsonScanner.FindBalancedJsonObjectEnd` | src/blueprint/blueprint-agent.ts:699-733 | the loop over depth, string and escape flags computes the specified index |
| `JsonScanner.PassValue` | src/blueprint/blueprint-agent.ts:704-731 | inside an object, any JSON value is passed over, whatever braces, quotes and escapes its strings hold |
| `JsonScanner.ObjectEndIsFound` | src/blueprint/blueprint-agent.ts:699-733 | started at the brace of any JSON object (RFC 8259, sections 4 and 7), whatever precedes and follows, the result is that object's own closing brace |
| `JsonScanner.NeverNegative` | src/blueprint/blueprint-agent.ts:724-729 | from an opening brace the negative-depth exit is never taken, for any text |
| `JsonScanner.TruncatedObjectHasNoEnd` | src/blueprint/blueprint-agent.ts:732-732 | an object cut short anywhere has no end |
| `Wave.EveryInterleaving` | src/cli/wave.ts:145-212 | in every interleaving no index is claimed twice, no slot written twice or with another task's result, and no more workers than allowed are created, each with at most one job at a time |
| `Wave.NextKeepsInv` | src/cli/wave.ts:155-207 | every step of a worker, and an interruption, keeps the slot and counter invariant |
| `Wave.ResolvedExactly` | src/cli/wave.ts:209-211 | an uninterrupted wave that resolves has each selection claimed once and its one result in its slot, exactly when it had a worker at all |
| `Wave.ExitCodeExactly` | src/cli/wave.ts:318-320 | it exits with 0 exactly when every selection completed and every spec parsed |
| `Wave.StuckExactly` | src/cli/wave.ts:156-206 | the workers can take no step exactly when all have returned |
| `Wave.EveryWaveEnds` | src/cli/wave.ts:145-212 | in every interleaving, interrupted or not, at most three steps are taken for each selection, one for each worker and one for the interruption, after which the wave has resolved |
| `Wave.NoWorkersExitCleanly` | src/cli/wave.ts:209-210 | called with no parallelism, the scheduler runs nothing and the exit code is still 0 |
| `Wave.InterruptLeavesHoles` | src/cli/wave.ts:166-179 | interrupted, a worker can leave its slot empty |
| `Wave.SlotsTellWhatHappened` | src/cli/wave.ts:155-207 | in every interleaving a slot holds what the event that settled it said: the outcome of the job that ran for its selection, or that it could not be started |
| `Wave.InterruptStopsClaims` | src/cli/wave.ts:162-164 | after an interruption no further selection is claimed |
| `Inbox.Poller.ProcessMessages` | src/coordination/cc-inbox-core.ts:74-112 | one tick leaves the specified log, seen set and counters, also when the output throws or the process is killed after any step |
| `Inbox.AtLeastOnceDelivery` | src/coordination/cc-inbox-core.ts:1-10 | in every run of ticks, crashes, restarts, throwing outputs and failing acknowledgements, a message moved to read was delivered right before, and no process delivers an id twice |
| `Inbox.CallDeliversExactly` | src/coordination/cc-inbox-core.ts:82-89 | for any call, complete, left by a throwing output or killed at any step: an id is delivered exactly when a listed message has it that the process has not seen, no output throws for a fresh message up to that one, and the process lives until it has emitted it |
| `Inbox.CompleteCallDeliversExactly` | src/coordination/cc-inbox-core.ts:82-89 | in particular, a call that comes to its end delivers exactly the listed ids its process had not seen |
| `Inbox.ThrownIsNotRetried` | src/coordination/cc-inbox-core.ts:83-87 | whatever call a throwing output left: the message at which it stopped is fresh and the first whose output threw, it is marked seen but was not delivered, and no later call of the same process delivers it |
| `Inbox.ThrownExactly` | src/coordination/cc-inbox-core.ts:83-87 | a call is left by a throwing output exactly when the first fresh message whose output throws is reached before the process is killed |
| `Json.SortedEqualExactly` | src/core/adapter-loader.ts:127-139 | sorted forms are equal exactly when the values are, up to key order at every depth |
| `Json.TextIsPrefixFree` | src/core/adapter-loader.ts:141-143 | the text of a value determines it, whatever follows |
| `Json.StableTextsEqualExactly` | src/core/adapter-loader.ts:141-143 | stable texts are equal exactly when the values are, up to key order |
| `AdapterBundle.NormalizeAdapterBundleConfig` | src/core/adapter-loader.ts:145-173 | the changes made one after the other normalize each section on its own |
| `AdapterBundle.SharedHashEqualExactly` | src/core/adapter-loader.ts:176-188 | two configs share a hash exactly when, once blanked, they are equal up to key order at every depth |
| `AdapterBundle.MachineLocalDoesNotMatter` | src/core/adapter-loader.ts:92-100 | setting any machine-local field, to whatever value, moves no hash |
| `AdapterBundle.ErasedExactly` | src/core/adapter-loader.ts:145-173 | in each section normalizing erases the machine-local fields and nothing else: the Codex home of the agent, of eight stages, and of a judgment runner that runs Codex, the keys of the agent, and two paths that become placeholders |
| `AdapterBundle.OverlayIsErased` | src/core/adapter-loader.ts:171-172 | nor does any worker overlay |
| `Analytics.PatternDb.RecordRun` | src/analytics/analytics-updater.ts:44-109 | counting one run changes totals, tags, files, buckets and themes as specified |
| `Analytics.PatternDb.UpdateAnalytics` | src/analytics/analytics-updater.ts:23-120 | an update counts one run and sorts the themes |
| `Analytics.RebuildAnalyticsDb` | src/analytics/analytics-updater.ts:313-488 | a rebuild counts all runs and sorts the themes once |
| `Analytics.RebuildingIsUpdating` | src/analytics/analytics-updater.ts:403-481 | rebuilding gives the totals and statistics of updating run by run, and the same count for every theme, sorted by falling counts |
| `Analytics.RecordedTallies` | src/analytics/analytics-updater.ts:55-96 | every statistic, its rate included, is the tally of the runs it counts |
| `Analytics.BucketsAddUp` | src/analytics/analytics-updater.ts:135-157 | outcomes, complexity buckets and gate buckets each add up to the number of runs |

## Left out

- The reservation, the creators and the wave workers are state machines over values: aliasing and memory order do not arise between processes or between awaits.
- Progress of the lock: an attempt may time out, and a record parked by a reclaimer that dies stays parked until a reconciler comes by.
- Windows retry loops, clock skew, foreign hosts, malformed records, directory-shaped legacy locks, release tombstones and staging files (`src/core/task-creation-reservation.ts:387-488`).
- ReservationLimits.ExclusionWhileOwnersAreSpared: one direction. A restore that replaces a live owner's record breaks the invariant (`ReplacingKeepsInvExactly`) and loses the record for good (`ReplacedRecordIsLost`), but two need not be admitted: the owner may be withdrawing already, and a quarantine left behind by a process that lives on keeps everybody else out for as long as the canonical name is taken. `LostOwnerIsNotAlone` gives the converse from every state in which no request and no quarantine is left; from the others it depends on what live processes leave behind, which is a question of progress.
- SpecGateRuns.GateLosesExactly: for submissions without line terminators inside their lines, bare dashes and envelope tags without a value; with these the pattern reads over line ends, and `SpecGateLimits.WrappedValueIsCutOff` shows that the count then fails.
- SpecValues.ResolvedPriority: says nothing of a repair that supplied a default, which is held back (`SpecGateRuns.MarkedIsHeldBack`), or that inserted a Metadata section, which may take in bullets that stood outside any.
- SyncMigration.MigrateGitHubSyncMap: entries have a non-empty task id, as the code demands of every entry it reads; reading, staging and writing the map and the report are not modelled.
- TaskHygiene.TwoPhaseRowsAreOnePassRows: for callers that resolve every source in file order; the duplicate and superseded lists pass through the second phase unchanged.
- Glob.CompiledGlobMatches: patterns with regular-expression metacharacters other than the dot are left out; there the emitted text has the meaning the engine gives it, and `Glob.MatchesAnyPattern` takes any engine.
- AdapterBundle.SharedHashEqualExactly: keys that look like array indexes and the key `__proto__`, which JavaScript objects order or store specially, are taken as ordinary keys.
- Analytics.RebuildingIsUpdating: says nothing of known patterns and of the order of themes with equal counts, which legitimately differ, and takes no tag or file to be named like a property of every JavaScript object; rates are real numbers.
- Letter case is mapped for ASCII letters only; strings are sequences of characters without normalization.
- Wave.ResolvedExactly: the wait for a degraded worktree (`src/cli/wave.ts:166-175`) may take any time and promises nothing; jobs are seen only when they settle.
- The Markdown parser itself, schemas, prompts, command-line wiring, HTTP, git and the agent SDKs.
- Operator-facing reason and advice texts of verdicts and refusals.
