# Verification of the agent knowledge kit

A Dafny 4.11 model of the knowledge server's store, the host-side subscriber, the curation UI's diff
and trigger parsing, and the Codex adapter's managed block, with proofs of what they promise.
`dafny verify dfyconfig.toml` checks everything.

## What is modelled

**The store** (`knowledge-server/store/store.go`). `StoreModel` gives its tables as values and each
public operation as a transition from tables to tables and a result. `Store.KnowledgeStore` is the store
as the object it is: seven tables reassigned in place, loops as loops, every method proved to do exactly
its transition. Its ghost `history` and `Valid()` tie a live store to a run of the transition system
(`Exec`), so a statement about every run is a statement about every valid store
(`StorePromises.ValidStoreKeepsPromises`). `StoreLog` compares the tables with the log of accepted
saves; `StoreHistory`, `StoreLedger`, `StoreOrder`, `StoreReleases` and `StorePublish` prove what
follows for versions, statuses, lost updates, read-back, conflicts, candidates, releases and publishing.

**The subscriber** (`knowledge-server/subscriber/main.go`). `SubscriberModel` is one converge pass as a
machine of micro-steps, one per system call or request, on the `.applied` bytes, the `corpus` link,
temporary links and the directories below `releases/`. At every step an input decides whether it takes
effect, fails (perhaps half done) or kills the process (perhaps half done). `Subscriber.Subscriber` is
the program itself, proved to leave the files and send the heartbeat of the machine.
`SubscriberSafety` proves fail-softness against any server, with the tree shown tied to the response the
same run polled; `Reports` what a pass reports; `Extraction` and
`ArchiveRoundTrip` treat tar extraction and the archive round trip.

**The two together.** `World` composes the machine with the store in every interleaving: any store
operation may run between two micro-steps, responses may be lost or cut short, heartbeats may be lost,
delayed or delivered twice. `Convergence` proves that ok heartbeats tell the truth and that resync
flags clear only when earned; `SelfStabilisation` proves that one undisturbed pass converges, `Failures`
which failed steps a pass survives, `Leftovers` what happens when the temporary directory cannot be cleared, and `Progress` that every run can be carried
on to a converged host and that a pass of the program is a stretch of a composed run.

**The UI** (`knowledge-server/ui/lib.mjs`). `LineDiffs` proves the line diff correct and optimal on its
flat table; `Triggers` treats the editor's trigger field.

**The Codex adapter** (`adapters/codex/update-agents-md.sh`). `ManagedBlock` treats the block laws.

## Conventions

- A Go or shell string is a byte string: one Dafny character per byte. JavaScript strings are sequences
  of UTF-16 code units.
- SHA-256 is a function parameter to 32 bytes. Where a law needs collision freedom, the lemma asks it
  only of the finitely many strings that were hashed.
- A tar archive is a sequence of (name, regular, body). A release's archive lists regular entries.
- The wording of error messages and conflict details is replaced by datatypes that carry the same data.
- The schema's unique indexes and triggers never fire: what they demand (one active version, one open
  conflict per kind and family, immutable resolved rows, unique versions and paths) is proved of every
  run of the code's own statements.
- The `collections` table is a constant of a run; no modelled operation writes it.

## Where the code and its documentation differ

- `adapters/codex/update-agents-md.sh:6` promises to leave everything outside the markers untouched.
  It fails in two ways. awk terminates an unterminated last line
  (`ManagedBlock.UnterminatedLineIsTouched`), and it deletes all text after a begin marker whose end
  marker is gone (`ManagedBlock.StrandedTextIsLost`). `ManagedBlock.OperatorBytesKept` proves that these
  are the only ways: the promise holds if and only if neither is the case.
- `knowledge-server/subscriber/main.go:437-440` promises that the materialised tree never contains an
  unmanifested file. The removal of the temporary directory is best effort, and extraction goes on over
  what it leaves. `Leftovers.FailedRemovalPass` proves when such a pass still shows exactly the release
  (if and only if every leftover has a path of it) and `Leftovers.UnmanifestedFileIsShown` is a run in
  which it does not. In the composed system, where nobody else writes the host's files, leftovers always
  have paths of their own release and every ok heartbeat is for the exact tree
  (`Convergence.HeartbeatsTellTheTruth`).
- The marker does not always name what `corpus` shows: between the flip and the mark they differ. What
  does hold is the order marker <= corpus <= newest release (`Convergence.MarkerCorpusServer`).
- Acknowledgements are untagged (`docs/plans/knowledge-server.md:485-489`): a late one clears a newer
  request. `Convergence.LateAckClearsNewerRequest` states that, `Progress.LateAckHappens` shows every run
  with a release can be carried on to it, and `Convergence.FlagClearsOnlyWhenEarned` states what an
  acknowledgement does prove.
- `validateEntryPath` ends with an escape check that can never fire; `Extraction.EntryPathDecides`
  proves the earlier checks decide alone.

## Model

| member | source | states |
|---|---|---|
| `Convergence.HeartbeatsTellTheTruth` | knowledge-server/subscriber/main.go:203-319 | in every run (crashes, torn writes, lost, late and repeated messages), an ok heartbeat for release N was sent while `corpus` resolved to a tree holding exactly the paths and bodies of release N as the store serves it |
| `Progress.FleetShowsTruth` | knowledge-server/store/store.go:1089-1115 | in every run the host's heartbeat row is one the host sent, for release 0 or a stored one; when it says ok for a release, `corpus` showed exactly that release as it was sent |
| `Progress.HeartbeatsNameTheirPoll` | knowledge-server/subscriber/main.go:203-319 | in every run of the composed system every heartbeat, ok or not, names the stored release its pass polled and acknowledges iff it is ok and was asked to resync, or reports failure and 0 having polled nothing |
| `Reports.RunsReport` | knowledge-server/subscriber/main.go:203-319 | in every run of the machine, against any server, every heartbeat reports on the poll of its own pass |
| `Reports.PassReports` | knowledge-server/subscriber/main.go:203-319 | every pass sends one heartbeat unless it dies; it names the release polled whether it went well or not, 0 iff nothing was polled, and acknowledges iff it went well and was asked to resync |
| `Failures.FatalFailureIsReported` | knowledge-server/subscriber/main.go:203-319 | a pass in which any step fails, other than reading the marker or a best-effort removal before a creation, is reported as failed whatever happens afterwards |
| `Failures.RefusedPass` | knowledge-server/subscriber/main.go:234-281 | whatever manifest and archive a server answers, an undisturbed pass that does not end ok has changed nothing but to clear its temporary directory away; with an unsafe manifest path it fails and changes nothing |
| `Failures.UnreadableMarkerPass` | knowledge-server/subscriber/main.go:226-232 | a marker that cannot be read counts as absent and the release is fetched anew |
| `Failures.StaleLinkPass` | knowledge-server/subscriber/main.go:541-554 | a failed removal of the temporary link stops the pass iff such a link is there |
| `Failures.FailedFlipPass` | knowledge-server/subscriber/main.go:541-554 | a failed rename leaves `corpus` and the marker alone and clears the temporary link away |
| `Failures.AnyStartMayBeLeft` | knowledge-server/subscriber/main.go:570-572 | a marker write broken off, by failure or death, may leave any part of the marker from its start |
| `Convergence.MarkerCorpusServer` | knowledge-server/subscriber/main.go:283-316 | in every run a readable marker, whole or torn, names a release no newer than the one `corpus` shows and carries that release's hash or a start of it; `corpus` always shows one whole stored release |
| `SelfStabilisation.OnePassConverges` | knowledge-server/subscriber/main.go:203-319 | from the files any run leaves, one undisturbed pass shows exactly the current release and reports ok, acknowledging iff the flag is set; a second pass changes nothing on disk |
| `Progress.RunsCanConverge` | knowledge-server/subscriber/main.go:203-319 | wherever a run of the composed system stands, mid-pass or dead, once the store has a release it can be carried on to a host that shows exactly the current release and an ok heartbeat for it, acknowledging iff the flag is set |
| `Progress.PassPlays` | knowledge-server/subscriber/main.go:203-319 | a pass whose responses are the store's is, step by step as its environment says, a stretch of a run of the composed system |
| `Progress.ConvergeIsPlayed` | knowledge-server/subscriber/main.go:203-319 | one run of the subscriber program leaves the files and sends the heartbeat of such a stretch |
| `SelfStabilisation.ResyncHealsTampering` | knowledge-server/subscriber/main.go:216-224 | with the flag set, one pass reaches the current release from any files whatever, in a directory that was free; its heartbeat clears the flag and the next pass touches nothing |
| `SelfStabilisation.ResyncHeals` | knowledge-server/subscriber/main.go:216-319 | the same against any server whose manifest, archive and hash belong together, and every installed directory keeps its content |
| `SelfStabilisation.ConvergedPass` | knowledge-server/subscriber/main.go:226-232 | a pass that finds a matching marker and no flag leaves the disk as it was and reports ok without an acknowledgement |
| `SelfStabilisation.MatchedShowsCurrent` | knowledge-server/subscriber/main.go:226-232 | skipping on a matching marker is sound: `corpus` then shows the whole current release |
| `SelfStabilisation.MarkerMatchesExactly` | knowledge-server/subscriber/main.go:558-568 | a marker names the current release iff its fields are exactly the id and the hash |
| `Convergence.FlagClearsOnlyWhenEarned` | knowledge-server/store/store.go:1089-1115 | in every run the flag goes from set to clear only when a heartbeat arrives whose pass read it set and then verified, freshly installed, selected and marked the tree of the release it reports |
| `Convergence.LateAckClearsNewerRequest` | docs/plans/knowledge-server.md:485-489 | acknowledgements are untagged: delivering one after a newer request clears that request, in every run that has sent one |
| `Progress.LateAckHappens` | docs/plans/knowledge-server.md:485-489 | every run whose store has a release can be carried on so that an acknowledgement is under way when a newer request is made, no pass polls after it, and its delivery clears that request |
| `Progress.LateAckFromScratch` | docs/plans/knowledge-server.md:485-489 | so the late acknowledgement is reached from nothing, with any collection to release |
| `Progress.FirstRelease` | knowledge-server/store/store.go:750-848 | a save and a cut give a store its first release |
| `Convergence.FlagChange` | knowledge-server/store/store.go:1089-1128 | per operation: only an ok acknowledging heartbeat of the host clears its flag, only its own resync request sets it, and each does when the host name is valid |
| `Convergence.WorldsAreOk` | knowledge-server/subscriber/main.go:203-319 | the global invariant of the composed system holds after every sequence of acts |
| `World.TickKeeps` | knowledge-server/subscriber/main.go:203-319 | every micro-step against honest responses, failed or fatal ones included, keeps files, marker and pass consistent with the stored releases |
| `World.MarkerNames` | knowledge-server/subscriber/main.go:226-232 | any prefix of a marker that compares equal to the current release was written for that release |
| `World.AtShowsRelease` | knowledge-server/subscriber/main.go:541-554 | consistent files: what `corpus` names is installed and holds one whole stored release |
| `World.ReplyIsNewest` | knowledge-server/api.go:315-343 | the current-release reply exists iff a release does; it names the largest id, that release's hash and paths, and the host's flag |
| `SubscriberSafety.RunsAreSoft` | knowledge-server/subscriber/main.go:241-310 | against any server and any failures, after any inputs: installed directories keep their content, and `corpus` shows what it showed at first or a tree that a pass of this run verified against a response polled in this run; the next micro-step is fail-soft too |
| `SubscriberSafety.TickIsSoft` | knowledge-server/subscriber/main.go:241-310 | one micro-step keeps the local invariant and is fail-soft; a newly shown tree has the advertised hash and is what the temporary directory held overlaid with entries under exactly the manifest's names |
| `SubscriberSafety.PassIsSoft` | knowledge-server/subscriber/main.go:203-319 | a whole pass, however its steps go, keeps every installed directory, and leaves `corpus` showing what it showed or the tree this pass verified against the response it polled |
| `SubscriberSafety.VerifiedIsExact` | knowledge-server/subscriber/main.go:437-440 | a verified tree holds the manifest's files and nothing else iff everything found in the temporary directory has a manifest path; what else it holds is what was found |
| `SubscriberSafety.RemovalLeavesNothing` | knowledge-server/subscriber/main.go:257-262 | when the removal takes effect nothing is found, so the tree is exact |
| `Leftovers.FailedRemovalPass` | knowledge-server/subscriber/main.go:257-318 | a pass whose removal fails, wholly or half way, and then runs undisturbed reports ok iff nothing left is in the way; it then shows the release laid over what was left, which is the release iff everything left has a path of it |
| `Leftovers.UnmanifestedFileIsShown` | knowledge-server/subscriber/main.go:437-440 | a concrete run that ends on an ok heartbeat with an unmanifested file in view |
| `SelfStabilisation.FillingPass` | knowledge-server/subscriber/main.go:257-318 | from any content of the temporary directory that is not in the way, the offered files are laid over it, installed, selected and marked |
| `SubscriberSafety.PassIsRun` | knowledge-server/subscriber/main.go:203-319 | a pass as the program runs it is a run of the machine on the inputs its environment gives, in order |
| `SubscriberSafety.TickKeepsPass` | knowledge-server/subscriber/main.go:216-318 | an ok acknowledging heartbeat can only follow a pass that read the flag, verified, installed afresh, flipped and marked |
| `SubscriberModel.TickDescends` | knowledge-server/subscriber/main.go:203-319 | every micro-step, however it goes, brings the pass closer to its heartbeat |
| `SubscriberModel.DirNameInjective` | knowledge-server/subscriber/main.go:497-512 | a release directory name determines release id and suffix |
| `SubscriberModel.NamesApart` | knowledge-server/subscriber/main.go:257-262 | release directories and temporary names never collide |
| `SubscriberModel.TempNameInjective` | knowledge-server/subscriber/main.go:257-262 | temporary names of different releases differ |
| `SubscriberModel.FreshFrom` | knowledge-server/subscriber/main.go:497-512 | counting up ends on a free suffix with every smaller one taken |
| `Subscriber.FreshReleaseDir` | knowledge-server/subscriber/main.go:497-512 | the loop terminates with the least free suffix |
| `Subscriber.Subscriber.Converge` | knowledge-server/subscriber/main.go:203-319 | one pass leaves the files and sends the heartbeat that the machine does, for every way its steps may go; the heartbeat names the release polled, ok or not, or 0 with nothing polled, acknowledges iff ok and asked to resync, and is missing only on death |
| `Subscriber.Subscriber.FetchCurrent` | knowledge-server/subscriber/main.go:351-374 | a response starts the pass; anything else goes to the failure heartbeat |
| `Subscriber.Subscriber.ClearMarker` | knowledge-server/subscriber/main.go:216-224 | the resync step erases the marker, or fails or dies with it in place |
| `Subscriber.Subscriber.CheckMarker` | knowledge-server/subscriber/main.go:226-232 | converged exactly when the marker names this id and hash; an unreadable marker counts as absent |
| `Subscriber.Subscriber.PrepareWant` | knowledge-server/subscriber/main.go:234-255 | an invalid manifest path fails the pass before anything is written |
| `Subscriber.Subscriber.FreshTemp` | knowledge-server/subscriber/main.go:257-262 | best-effort removal, then creation, of the temporary directory |
| `Subscriber.Subscriber.FetchAndExtract` | knowledge-server/subscriber/main.go:376-391 | fetching and extracting, or the way to dropping the temporary directory |
| `Subscriber.Subscriber.ExtractStream` | knowledge-server/subscriber/main.go:445-489 | the extraction loop follows the machine entry by entry |
| `Subscriber.Subscriber.TakeOne` | knowledge-server/subscriber/main.go:448-481 | one entry: refused, written whole, or broken off after a prefix of its bytes |
| `Subscriber.Subscriber.EndStream` | knowledge-server/subscriber/main.go:482-489 | the end of the stream is accepted only when whole and complete |
| `Subscriber.Subscriber.CheckEntry` | knowledge-server/subscriber/main.go:452-466 | an entry is admitted iff safely named, regular and in the manifest |
| `Subscriber.Subscriber.VerifyTemp` | knowledge-server/subscriber/main.go:271-281 | the extracted tree passes iff its recomputed hash is the advertised one |
| `Subscriber.Subscriber.InstallTemp` | knowledge-server/subscriber/main.go:283-304 | the temporary directory is renamed to a name that was free |
| `Subscriber.Subscriber.FlipCorpus` | knowledge-server/subscriber/main.go:541-554 | clear a stale link, make the new one, rename it over `corpus`; on failure `corpus` is as it was |
| `Subscriber.Subscriber.RemoveLink` | knowledge-server/subscriber/main.go:541-554 | removing the temporary link, best effort |
| `Subscriber.Subscriber.MakeLink` | knowledge-server/subscriber/main.go:541-554 | making the temporary link fails when it is still there |
| `Subscriber.Subscriber.RenameLink` | knowledge-server/subscriber/main.go:541-554 | the rename replaces `corpus` in one step |
| `Subscriber.Subscriber.WriteApplied` | knowledge-server/subscriber/main.go:570-572 | the marker is written whole, or a failed write leaves any prefix of it |
| `Subscriber.Subscriber.DropTemp` | knowledge-server/subscriber/main.go:264-281 | a failed pass drops its temporary directory, best effort |
| `Subscriber.Subscriber.Materialise` | knowledge-server/subscriber/main.go:257-318 | from temporary directory to marker: ok and acknowledged exactly when every step took effect and the flag was read |
| `Subscriber.Subscriber.Select` | knowledge-server/subscriber/main.go:283-318 | install, flip, mark, in this order |
| `Subscriber.Subscriber.SendHeartbeat` | knowledge-server/subscriber/main.go:577-611 | the heartbeat carries the release, outcome and acknowledgement it is given, unless the process dies |
| `Subscriber.CheckEntryPath` | knowledge-server/subscriber/main.go:399-419 | the path check, element by element |
| `Subscriber.BuildWantSet` | knowledge-server/subscriber/main.go:424-433 | the manifest is accepted iff every path is safe; the set is then its paths |
| `Subscriber.RecomputeContentHash` | knowledge-server/subscriber/main.go:521-534 | the running hash over the manifest's files, or failure when one is missing |
| `Extraction.ExtractionIsExact` | knowledge-server/subscriber/main.go:445-489 | extraction succeeds iff every entry is safely named, regular and manifested, every manifested name occurs and no two names are in each other's way; it writes exactly the manifest's cleaned paths, all strictly below the destination, each with its last entry's body |
| `Extraction.EntryPathDecides` | knowledge-server/subscriber/main.go:399-419 | the up-front rejections decide alone; the target is the destination followed by the name's own elements |
| `Extraction.ExtractFromDecides` | knowledge-server/subscriber/main.go:445-489 | the same into a directory that already holds files |
| `Extraction.ReadFilesDecides` | knowledge-server/subscriber/main.go:521-534 | reading back succeeds iff every manifested file is there, and reads each under its own path in manifest order |
| `ArchiveRoundTrip.ArchiveExtractsExactly` | knowledge-server/store/store.go:1056-1083 | in every run, for every release: its archive extracts against its manifest, rebuilds exactly the path-to-body map, and hashes to the advertised content hash |
| `ArchiveRoundTrip.PathIsSafe` | knowledge-server/store/store.go:298-323 | paths built from valid identifiers pass the subscriber's path check and clean to collection and file name |
| `StoreLog.TablesRefineLog` | knowledge-server/store/store.go:378-434 | in every run the in-place document and link tables are those the log of accepted saves spells out |
| `StoreLog.TableAfterSave` | knowledge-server/store/store.go:410-429 | demoting the active row and inserting the new one is one more log entry |
| `StoreLog.SaveTxRefinesLog` | knowledge-server/store/store.go:378-434 | an accepted save extends the log by itself and nothing else |
| `StoreLog.CandidateHoldsActiveRows` | knowledge-server/store/store.go:593-608 | the candidate query returns exactly the active rows of release-bearing collections |
| `StoreLog.LintNamesDocument` | knowledge-server/store/store.go:593-641 | a lint error names a stored version |
| `StoreHistory.LogOnlyGrows` | knowledge-server/store/store.go:378-434 | a longer run keeps the log of a shorter one as its start |
| `StoreHistory.VersionsAreDense` | knowledge-server/store/store.go:387-434 | in every run a family's versions are exactly 1..max, one row each |
| `StoreHistory.StatusFollowsLog` | knowledge-server/store/store.go:410-429 | a row is active iff it is its family's latest save as active; a draft stays a draft; no family has two active rows |
| `StoreHistory.CandidateIsFunctionOfLog` | knowledge-server/store/store.go:593-641 | runs with the same accepted saves have the same candidate, verdict included |
| `StoreHistory.NoLostUpdate` | knowledge-server/store/store.go:387-401 | in every run at most one save guarded by a given base is accepted per family, and it creates version base + 1 |
| `StoreHistory.RunsAreGuarded` | knowledge-server/store/store.go:387-401 | every accepted guarded save creates the version after its base |
| `StoreHistory.SaveAcceptsExactly` | knowledge-server/store/store.go:446-487 | the exact acceptance condition, the rows after an accepted save, what a rejection leaves alone, and whether it is invalid input or a recorded conflict |
| `StoreHistory.StaleSaveIsRecorded` | knowledge-server/store/store.go:498-549 | stale iff the base is not current; documents stay, and the open edit row holds the whole rejected save, its base, the version it lost to and one more attempt |
| `StoreHistory.ReadBackIsExact` | knowledge-server/store/store.go:956-1013 | in every run a saved version reads back as its table row, status included, with its text fields, triggers, ordered links and body |
| `StoreHistory.ReadBackFindsExactly` | knowledge-server/store/store.go:956-1013 | a positive version is found iff the family has saved that many; bad names are invalid, all else not found |
| `StoreHistory.LatestIsLastSave` | knowledge-server/store/store.go:956-1013 | no version asks for the family's last save, with its row, body, triggers and links; not found iff it was never saved |
| `StoreHistory.LatestIsHighest` | knowledge-server/store/store.go:956-1013 | the whole answer without a version is the answer for the family's highest version |
| `StoreHistory.TriggersRoundTrip` | knowledge-server/store/store.go:991-1012 | comma join and split give the list back iff no trigger holds a comma and the list is not one empty trigger |
| `StoreHistory.GrammarRoundTrips` | knowledge-server/store/store.go:332-369 | what `validateDocSave` accepts round-trips |
| `StoreHistory.LinkTableByDoc` | knowledge-server/store/store.go:410-429 | the link rows of a version are the links it was saved with, in order |
| `StoreHistory.LinksAreNumbered` | knowledge-server/store/store.go:420-428 | in every run the link rows of each version are numbered 0, 1, 2 and so on, in order |
| `StoreHistory.NoVersionLinksToItself` | knowledge-server/store/store.go:402-408 | in every run no version links to itself |
| `StoreLedger.AttemptsAreConserved` | knowledge-server/store/store.go:498-549 | in every run the attempts of edit, policy and claim rows add up to the recorded stale saves, lint-failed cuts and flagged claims, and the ledger is well formed |
| `StoreLedger.RowsTellLatest` | knowledge-server/store/store.go:498-549 | in every run every row shows a recorded attempt, and an open row the latest on its family: an edit row carries that stale save whole with a base other than the version it lost to, a policy row the version and reason of that lint |
| `StoreLedger.LedgerShape` | knowledge-server/store/store.go:133-140 | ids are positions, counters start at one, claims stay at one, open rows carry no resolution, and no kind has two open rows for a family |
| `StoreLedger.LedgerOnlyGrows` | knowledge-server/store/store.go:1499-1585 | whatever runs later, rows keep place and subject, resolved rows never change, and attempt fields change only with the counter |
| `StoreLedger.ResolveSeesWhatClientRead` | knowledge-server/store/store.go:1499-1585 | ABA-free: a resolve guarded by the attempts a client read succeeds only on the very row it read; with a save the winner is the new maximum |
| `StoreLedger.ResolveAcceptsExactly` | knowledge-server/store/store.go:1499-1585 | the exact acceptance condition; any rejection changes no table |
| `StoreLedger.ResolveAnswers` | knowledge-server/store/store.go:1499-1585 | a success returns the row as stored from then on: the open row with resolver, trimmed text and winning version added, no other row touched; a failure is invalid input, not found or a conflict, each exactly when it should be |
| `StoreLedger.SaveTxRaisesMax` | knowledge-server/store/store.go:387-434 | an accepted save is the new maximum version of its family |
| `StoreLedger.MirroredClaimIsDuplicate` | knowledge-server/store/store.go:1396-1446 | a claim and its mirror image are one claim: either way round the second is refused |
| `StoreLedger.ClaimIsRecorded` | knowledge-server/store/store.go:1382-1472 | the exact acceptance condition of a claim, the row it writes, and whether a refusal is invalid input or a conflict |
| `StoreLedger.LintFailedCutIsRecorded` | knowledge-server/store/store.go:856-883 | a lint-failed cut writes one policy row, new or refreshed, naming document, version and reason, and nothing else |
| `StoreOrder.SortSorts` | knowledge-server/store/store.go:593-608 | `ORDER BY collection, family_id` sorts strictly when families are distinct |
| `StoreOrder.SortOfSorted` | knowledge-server/store/store.go:1015-1044 | re-sorting what was stored in order changes nothing |
| `StoreOrder.CandidateIsSorted` | knowledge-server/store/store.go:593-608 | the candidate lists each selected row once, strictly by collection and family |
| `StoreReleases.CandidateAcceptsExactly` | knowledge-server/store/store.go:593-641 | in every run the staged lints accept iff something is selected, every kernel fits both caps and every link of a selected version holds |
| `StoreReleases.CandidateRefusesExactly` | knowledge-server/store/store.go:593-641 | in every run a refusal is for emptiness iff nothing is selected, else for the first kernel over a cap, else for the first link that does not hold |
| `StoreReleases.KernelWordsCount` | knowledge-server/store/store.go:609-627 | whatever white space parts them, a kernel of words fits iff it has at most 2000 of them in at most 24576 bytes |
| `StoreReleases.LinkLintDecides` | knowledge-server/store/store.go:662-713 | a link passes iff its target exists in the status and collection its relation demands |
| `StoreReleases.LinkLintSaysWhy` | knowledge-server/store/store.go:662-713 | a refused link carries its true reason, for each of the five reasons |
| `StoreReleases.KernelLintIsFirst` | knowledge-server/store/store.go:609-627 | the kernel lint reported is the first in candidate order, bytes before words |
| `StoreReleases.LinkLintIsFirst` | knowledge-server/store/store.go:628-641 | the link lint reported is the first in candidate order and then link order |
| `StoreReleases.RunExtends` | knowledge-server/store/store.go:777-791 | whatever runs later, documents change only in status, and links, releases and members stay |
| `StoreReleases.CutStoresCandidate` | knowledge-server/store/store.go:750-791 | a successful cut appends one release with the next id whose members are exactly the candidate |
| `StoreReleases.ReleasesAreSound` | knowledge-server/store/store.go:750-848 | every release of every run is non-empty, strictly ordered, closed under links, and stores the hash of its documents |
| `StorePublish.ReleasesAreFrozen` | knowledge-server/store/store.go:1015-1083 | whatever runs later, a release reads back with the same manifest and archive, and hashing the archive gives the stored hash |
| `StorePublish.ReleasesAreClosed` | knowledge-server/store/store.go:662-713 | in every release each member's reference leads to a member, and no member is what another supersedes |
| `StorePublish.GuardedCutPublishesPreview` | knowledge-server/store/store.go:720-791 | a cut guarded by an earlier preview publishes exactly the previewed paths and bodies, whatever ran in between, with all lints holding at the cut |
| `StorePublish.ContentBytesDecode` | knowledge-server/store/store.go:643-656 | NUL-terminated paths with 32-byte digests decode uniquely |
| `StorePublish.EqualHashEqualFiles` | knowledge-server/store/store.go:643-656 | equal content hashes mean equal path and body lists, unless SHA-256 collides on what was hashed |
| `StorePublish.CutReturnsStoredManifest` | knowledge-server/store/store.go:750-848 | a cut returns the manifest that reading it back, the current release and a preview just before all give |
| `StorePublish.CutOutcomes` | knowledge-server/store/store.go:750-848 | a cut succeeds iff the candidate does and the expected hash is empty or equal; what each outcome leaves alone |
| `StorePublish.PreviewForetellsCut` | knowledge-server/store/store.go:716-728 | a preview is the dry run of an unguarded cut: Ok iff that cut would be, with its hash and lines, else the very lint or emptiness it reports |
| `StorePublish.PreviewAcceptsExactly` | knowledge-server/store/store.go:716-728 | in every run a preview is Ok iff something is selected and everything selected passes the lints |
| `StorePublish.ManifestDescribesArchive` | knowledge-server/store/store.go:1015-1083 | line by line a manifest names its archive's path, the hash of the body, and a family and version that read back as that body |
| `StorePublish.ReleasesFoundExactly` | knowledge-server/store/store.go:1015-1083 | releases and archives are found by the ids 1 to the newest, anything else is not found, and the current release is the newest |
| `StorePublish.CutClearsPolicies` | knowledge-server/store/store.go:798-843 | a successful cut resolves every open policy row with its family's version in the new release, 0 when absent, and touches no other row |
| `StorePublish.VersionsByFamilyFinds` | knowledge-server/store/store.go:798-820 | indexing the manifest by path prefix and family finds exactly the members' versions |
| `StorePublish.CollectionRecovered` | knowledge-server/store/store.go:798-820 | building a path and taking its first element are inverse on valid identifiers |
| `StorePublish.PathNamesFamily` | knowledge-server/store/store.go:643-656 | equal paths mean the same collection and family |
| `StorePromises.ValidStoreKeepsPromises` | knowledge-server/store/store.go:378-848 | a store object between operations has the log's tables, a conserved ledger and only sound releases |
| `StoreChecks.ValidateIdent` | knowledge-server/store/store.go:298-323 | accepts exactly the non-empty printable-ASCII names without separators, leading dot or double dot |
| `Text.FieldsSplit` | knowledge-server/store/store.go:617-617 | `strings.Fields`: a white-space rune anywhere, of one byte or more, parts the fields before it from those after it |
| `Text.FieldsOfSolid` | knowledge-server/store/store.go:617-617 | `strings.Fields`: a text without white space is one field |
| `Text.FieldsOfWords` | knowledge-server/store/store.go:617-617 | `strings.Fields`: words parted by blanks, tabs, line breaks or any other white space are the fields |
| `Text.SpaceAtDecodes` | knowledge-server/store/store.go:617-617 | white space is found exactly where the UTF-8 of a white-space code point stands |
| `Text.TrimSpaceDoes` | knowledge-server/store/store.go:1382-1394 | `strings.TrimSpace` takes off a stretch of white space at either end and leaves none there; empty iff all was blank |
| `Text.BlankHasNoFields` | knowledge-server/store/store.go:1382-1394 | only a blank text has no fields |
| `Text.LessIsLexicographic` | knowledge-server/store/store.go:1410-1414 | the order of names is lexicographic by byte |
| `Text.DecimalSpells` | knowledge-server/subscriber/main.go:497-512 | a decimal spells its number, without a leading zero |
| `Text.HexSpells` | knowledge-server/store/store.go:643-656 | each byte of a digest is spelled by two hexadecimal digits |
| `StoreChecks.ValidateTriggers` | knowledge-server/store/store.go:339-347 | accepts exactly the trigger grammar |
| `StoreChecks.ValidateLinks` | knowledge-server/store/store.go:348-369 | accepts exactly valid, pairwise different links |
| `StoreChecks.LinkKeyInjective` | knowledge-server/store/store.go:348-369 | the duplicate key identifies a valid link |
| `StoreChecks.ValidateDocSave` | knowledge-server/store/store.go:332-369 | accepts exactly the valid saves |
| `StoreChecks.LintDocLinks` | knowledge-server/store/store.go:662-713 | returns the first failing link's reason |
| `StoreChecks.CollectCandidates` | knowledge-server/store/store.go:609-627 | returns the first kernel failure, or all rows |
| `StoreChecks.HashCandidates` | knowledge-server/store/store.go:643-656 | the loop computes the content hash of the files and the manifest lines |
| `StoreChecks.IndexManifest` | knowledge-server/store/store.go:798-820 | the nested maps hold exactly the manifest's versions by collection and family |
| `Store.KnowledgeStore.constructor` | knowledge-server/store/store.go:268-287 | a new store is valid and empty |
| `Store.KnowledgeStore.SaveDocTx` | knowledge-server/store/store.go:378-434 | changes documents and links by the save transition, or nothing on rejection |
| `Store.KnowledgeStore.UpsertEditConflict` | knowledge-server/store/store.go:498-549 | opens or refreshes the family's edit row |
| `Store.KnowledgeStore.SaveDoc` | knowledge-server/store/store.go:446-487 | the save transition with its conflict record; the store stays valid |
| `Store.KnowledgeStore.ReleaseCandidate` | knowledge-server/store/store.go:593-656 | the staged loops compute the candidate, its hash and its manifest lines, changing nothing |
| `Store.KnowledgeStore.LintCandidates` | knowledge-server/store/store.go:628-641 | the first link failure over all candidates |
| `Store.KnowledgeStore.PreviewRelease` | knowledge-server/store/store.go:720-728 | the preview transition, lints included, changing nothing |
| `Store.KnowledgeStore.UpsertPolicyConflict` | knowledge-server/store/store.go:856-883 | opens or refreshes the family's policy row |
| `Store.KnowledgeStore.InsertMembers` | knowledge-server/store/store.go:780-791 | one member row per candidate, in order |
| `Store.KnowledgeStore.ResolvePolicies` | knowledge-server/store/store.go:798-843 | collecting open policy rows and updating them by id clears exactly those |
| `Store.KnowledgeStore.CutRelease` | knowledge-server/store/store.go:750-848 | the cut transition, records included; the store stays valid |
| `Store.KnowledgeStore.FlagClaimConflict` | knowledge-server/store/store.go:1382-1472 | the claim transition; the store stays valid |
| `Store.KnowledgeStore.ResolveConflict` | knowledge-server/store/store.go:1499-1585 | the resolve transition, save and resolution together or neither, and its answer; the store stays valid |
| `Store.KnowledgeStore.Heartbeat` | knowledge-server/store/store.go:1089-1115 | upserts the host's row and clears the flag exactly on ok with an acknowledgement |
| `Store.KnowledgeStore.RequestResync` | knowledge-server/store/store.go:1120-1128 | sets the flag |
| `Store.KnowledgeStore.Release` | knowledge-server/store/store.go:1015-1050 | the stored manifest, joined and sorted |
| `Store.KnowledgeStore.CurrentReleaseManifest` | knowledge-server/store/store.go:1046-1048 | the release with the largest id |
| `Store.KnowledgeStore.WriteArchive` | knowledge-server/store/store.go:1056-1083 | one entry per manifest line, in order |
| `Store.KnowledgeStore.GetDocVersion` | knowledge-server/store/store.go:956-1013 | the version asked for, or the latest |
| `LineDiffs.LineDiff` | knowledge-server/ui/lib.mjs:385-441 | refused iff over a line, byte or product budget; otherwise eq and del rows spell `a`, eq and add rows spell `b`, as many lines are kept as a longest common subsequence has, and deletions come first |
| `LineDiffs.DiffIsOptimal` | knowledge-server/ui/lib.mjs:385-441 | no common subsequence is longer than what such a diff keeps, and no script between the same texts has fewer additions and deletions |
| `LineDiffs.LcsIsUpperBound` | knowledge-server/ui/lib.mjs:404-418 | the recurrence bounds every common subsequence |
| `LineDiffs.KeptIsCommon` | knowledge-server/ui/lib.mjs:419-440 | what any script keeps is a common subsequence of its two texts |
| `LineDiffs.FillTable` | knowledge-server/ui/lib.mjs:404-418 | after the loops, cell i*(m+1)+j holds the LCS length of the first i and j lines |
| `LineDiffs.Traceback` | knowledge-server/ui/lib.mjs:419-440 | the greedy traceback ends with an optimal script |
| `LineDiffs.BodyByteLen` | knowledge-server/ui/lib.mjs:448-456 | the UTF-8 length of the lines joined by newlines |
| `LineDiffs.Utf8AcrossNewline` | knowledge-server/ui/lib.mjs:448-456 | UTF-8 length adds up across a newline, surrogates included |
| `Triggers.ParseTriggers` | knowledge-server/ui/lib.mjs:241-249 | whatever is typed parses to a list in the server's grammar, trimmed |
| `Triggers.ParsedByParts` | knowledge-server/ui/lib.mjs:241-249 | parsing goes part by part: a comma parts what comes before from what comes after, and a part without commas is one trigger, trimmed, or none |
| `Triggers.TrimTakesEnds` | knowledge-server/ui/lib.mjs:241-249 | trimming takes off a stretch of white space at either end and nothing more |
| `Triggers.FormRoundTrips` | knowledge-server/ui/lib.mjs:329-342 | showing a list in the form and parsing it gives it back iff it satisfies the grammar and is trimmed |
| `Triggers.ParsedSurvives` | knowledge-server/ui/lib.mjs:241-249 | what the field parses to survives the form, and a comma join of the editor's strings, again |
| `Triggers.ParsedReachesServer` | knowledge-server/ui/lib.mjs:241-249 | what the field parses to, as the UTF-8 bytes the server receives, is a list the server accepts, stores in one column and reads back exactly |
| `Triggers.CommaByte` | knowledge-server/ui/lib.mjs:241-249 | only a comma is encoded with the comma byte, surrogates included |
| `ManagedBlock.LastUpdateWins` | adapters/codex/update-agents-md.sh:37-51 | updating twice is updating with the last accepted kernel alone; repeating an update changes nothing |
| `ManagedBlock.StrippedOfUpdated` | adapters/codex/update-agents-md.sh:37-51 | stripping undoes rendering |
| `ManagedBlock.OneBlock` | adapters/codex/update-agents-md.sh:29-51 | an updated file has exactly one line equal to each marker |
| `ManagedBlock.AcceptedExactly` | adapters/codex/update-agents-md.sh:29-32 | refusing is exact: an update leaves one line equal to each marker iff the kernel is one the script accepts |
| `ManagedBlock.KernelIsRecoverable` | adapters/codex/update-agents-md.sh:44-51 | the kernel's bytes are recoverable from the block exactly, final newline or not |
| `ManagedBlock.OutsideKeepsOperatorLines` | adapters/codex/update-agents-md.sh:37-43 | the awk filter prints exactly the lines whose nearest earlier marker, if any, is an end, in order |
| `ManagedBlock.OperatorLinesSurvive` | adapters/codex/update-agents-md.sh:37-51 | an update keeps the operator lines, in order, ahead of the block |
| `ManagedBlock.OperatorBytesKept` | adapters/codex/update-agents-md.sh:5-6 | the bytes between no pair of markers are kept iff no text follows a begin marker that is never closed and the file does not end in an unterminated line outside; stranded text is lost, an unterminated last line gains exactly one newline |
| `ManagedBlock.OutsideIsPrintedOrStranded` | adapters/codex/update-agents-md.sh:37-43 | a line between no pair of markers is either printed by awk or stranded behind an unclosed begin marker, never both |
| `ManagedBlock.StrandedTextIsLost` | adapters/codex/update-agents-md.sh:5-6 | a second family of inputs on which the promise fails: with the end marker lost, the text after the begin marker is deleted |
| `ManagedBlock.BytesAreText` | adapters/codex/update-agents-md.sh:37-43 | all lines with their own line ends are the file |
| `ManagedBlock.UnmanagedBytes` | adapters/codex/update-agents-md.sh:5-6 | a file without markers lies outside from end to end and strands nothing |
| `ManagedBlock.UnterminatedLineIsTouched` | adapters/codex/update-agents-md.sh:5-6 | the concrete input on which the promise of the comment fails |
| `ManagedBlock.StripBlocks` | adapters/codex/update-agents-md.sh:37-43 | the flag loop prints the lines outside blocks |
| `ManagedBlock.AgentsFile.Update` | adapters/codex/update-agents-md.sh:29-51 | a kernel holding a marker line is refused with the file untouched; any other replaces the block, a missing file counting as empty |

## Left out

- HTTP routing, JSON, headers, body caps, authentication, host tokens, TLS and protocol versions: `api.go` keeps only that the current-release reply carries the host's resync flag.
- SQLite: transactions are serial and atomic, as the single connection makes them.
- Timestamps, fleet status and its labels.
- Subscriber.Subscriber.SendHeartbeat: the host name, a constant of the process, and the wording of the error are left out of what the subscriber sends; the server takes any wording.
- ListDocs, DocHistory, ListConflicts, GetConflict, ListHosts: read-only views that add easy members.
- The JSON encoding of a stale save: the ledger stores the save itself.
- SHA-256 and the tar byte format; compressed or sparse entries.
- Empty directories, permissions, case-insensitive file systems, power-loss durability; I/O errors appear only as injected failures of a step.
- Several subscribers sharing one home, and anyone else writing below it, except that resync is proved to heal arbitrary files (`SelfStabilisation.ResyncHealsTampering`).
- Subscriber.Subscriber: its files are fields of the object, not an operating system's; a step's failure is an input rather than an error value.
- StorePublish.GuardedCutPublishesPreview: asks that SHA-256 not collide on the strings hashed for the two candidates, since no 32-byte hash is injective.
- Go's integer width: ids, versions and attempts are unbounded, which 64-bit counters do not reach.
- The other helpers of `lib.mjs`. `manifestDiff` is one; its comment (`knowledge-server/ui/lib.mjs:458-460`) speaks of family and version, its code (`:471`) compares only `sha256`.
- The Claude and pi adapters, `kernel-path.sh`, other scripts and the web front end.
