# A verified model of tidyfs

tidyfs scans a file system, classifies what it finds, plans cleanup under a deterministic policy that an AI
provider may only tighten, and moves approved paths into a quarantine from which they can be restored. This
project models those parts and proves what they promise. `dafny verify dfyconfig.toml` checks all of it.

## What is modelled

**The quarantine protocol.** `FileSystem` is a finite map from paths to nodes, in which a rename moves a
subtree. `Protocol` is a transition system: one step for every statement of clean, restore and recover that
touches the files or the `actions` table. Each step meets an event: it proceeds, its input/output or its
database write fails, it fails after having had its effect, the process dies, or another program changes the
files in between. `Commands` writes the same commands as imperative methods with their early returns and proves
each of them to be a run of that system. `Safety` holds the invariant and its preservation, `Crash` and
`Recovery` what a stopped command and its recovery end in, `History` the status edges and the conservation of
objects, `Locking` any number of processes under the mutation lock over any sequence of commands, `Admission`
what a candidate has to be before any row is written, `Cleaning` one undisturbed clean, `Restoring` one
undisturbed restore and the round trip of the two, `Overwriting` what a clean can replace, `Batch` and
`Selection` a whole clean run over many candidates. The fingerprint is a parameter there: the results hold for
every function of the tree. The program's digest of a regular file depends on how its reads are cut as well
(`Identity.FileMessage`). When the reads fill the buffer it is a function of the tree, directories in any
listing order included (`Identity.FingerprintIsOfTheTree`), which the protocol takes for granted.

Three hypotheses are stated openly, because the commands do not enforce them; `Overwriting` and `Hypotheses` say
of each exactly what depends on it.

- H1: the payload path of an action still to come does not exist. Safety and crash atomicity need no more than
  that; its directory may exist, with the manifest of an earlier table. Conservation needs the manifest path of
  such an action to be free as well, because the write of the manifest replaces what is there. One table keeps
  both by itself, since ids are never given out twice (`Safety.StepCarries`, `Locking.ActKeepsManifestsFree`); a
  second or reset table over the same quarantine root can break either. From its start to its end a clean loses
  nothing if and only if its payload path was free and nothing but the same text was at its manifest path
  (`Overwriting.CleanKeepsObjectsIff`); `Overwriting.WriteManifestKeepsObjectsIff` and
  `Overwriting.RenameInKeepsObjectsIff` say the same of the two statements.
- H2: no candidate lies in the quarantine root (for crash atomicity and for batches, nor above it). The
  preflight checks only the scan root. A clean leaves the earlier payloads alone if and only if its candidate is
  apart from each of them, and otherwise their rows still say `quarantined`
  (`Hypotheses.CleanKeepsQuarantineIff`).
- Reads: crash atomicity holds whatever fails, except the reads of the decisive checks, whose failure is taken
  for an answer: the moved payload (src/clean.rs:282), the restored payload (src/restore.rs:85), an occupied
  destination (src/restore.rs:52) and the payload that recovery has to verify (src/recover.rs:110, 164, 187). A
  statement that cannot read keeps the payload accounted for if and only if it is none of these
  (`Hypotheses.CleanReadFaultIff`, `Hypotheses.RestoreReadFaultIff`); each of them can strand a payload
  (`Hypotheses.UnreadMovedPayloadIsStranded` and the three after it).

**Policy.** `Rules` is the hierarchy canonicalizer with its groups, comparator and parent walk, proved against a
relational specification; `Hierarchy` says what that specification means for its users. `Planning` and
`Authority` follow a plan from any set of rules through the AI pass to clean, `Matching` says row by row what
rules and proposals mean, `Classified` starts one step earlier, at the classifier's rows, `Protection` goes on
to the end of the clean, and `Recommending` is the recommender's own, quadratic reading of the same policy, with
the proof that the two agree.

**Scanning.** `Scanning` is the aggregator, the dealing of work and every interleaving of the workers;
`Accounting` joins it with the policy: nothing is counted twice.

**Identity.** `Sha256` has the streaming hasher over its block buffer and the one-shot function, both over one
compression function; `Compression` is that of FIPS 180-4, over words as numbers below 2^32 whose operations are
characterized bit by bit, and SHA-256 with it; `Fips180` holds it against the text of the standard, down to the
roots of primes that the constants are taken from. `TreeEncoding` and `Observation` are the two length-framed
encodings, `Identity` the fingerprint.

## Where the code differs from its documents

- `Sha256::update` (src/identity.rs:128-153) loses a begun block that an input does not fill, and that input.
  The model follows the code. docs/recovery.md says that the fingerprint covers files, directories and symlinks;
  in fact no identity stream is hashed whole (`Identity.NoStreamIsHashedWhole`), and files of one length below
  56 bytes share their fingerprint (`Identity.SmallFilesShareTheirFingerprint`). When updates do hash everything
  is stated exactly in `Identity.UpdatesHashAllExactlyWhenTheyFit`, and for a file read through the 64 KiB
  buffer by its length alone in `Identity.BufferedFileIsHashedIff`; what a repaired update would give, in
  `Identity.RepairedFingerprint`. Nothing here says that equal fingerprints mean equal contents.
- docs/recovery.md describes `planned` as a row whose quarantine path is recorded. The code inserts the row
  first and records the path in a second write (src/clean.rs:230-235); a row stopped in between is reconciled to
  `failed`, as modelled.

## Model

| member | source | states |
|---|---|---|
| Commands.Tidyfs.constructor | src/clean.rs:130-137 | a process starts at rest over the given files, rows and script of outcomes |
| Commands.Tidyfs.PreflightCandidate | src/clean.rs:303-322 | passes exactly when the candidate is of low risk, reversible, a quarantine or trash action, within the scan root, and its path holds the scanned object, by device and inode, and no symlink; otherwise the command is over |
| Commands.Tidyfs.EnsureSameFilesystem | src/clean.rs:221 | passes exactly when the source is on the device of the deepest existing directory on the way to the quarantine root |
| Commands.Tidyfs.FingerprintCandidate | src/clean.rs:223-224 | the fingerprint of the tree at the source, or the end of the command when it cannot be read |
| Commands.Tidyfs.VerifyCandidateAtPath | src/clean.rs:324-358 | passes exactly when the path holds the scanned object, by device and inode, and no symlink; a failure before the insertion ends the command, one around the rename leads to the failure record |
| Commands.Tidyfs.Admit | src/clean.rs:220-228 | nothing is inserted unless the candidate is executable and the source is the scanned object after it was fingerprinted; no row is written |
| Commands.Tidyfs.InsertAction | src/clean.rs:362-391 | the action is the next id; its row is planned, with path, fingerprint and version and nothing else; a failed insertion changes no row and no id |
| Commands.Tidyfs.SetActionIntent | src/clean.rs:393-404 | the payload path goes into the row of a planned action before anything is made or moved; a failed write ends the command with the row as it is |
| Commands.Tidyfs.MakeDirectory | src/clean.rs:237-238 | the action directory is there in the end, or the failure record is next |
| Commands.Tidyfs.WriteManifestFile | src/clean.rs:252-253 | the manifest is created in the action directory; a write that fails may have created it |
| Commands.Tidyfs.Prepare | src/clean.rs:236-260 | on success the manifest is there and no row has changed; a failure is recorded as such, unless the process dies or the record itself fails |
| Commands.Tidyfs.SetActionStatus | src/clean.rs:406-422 | the status is written, or the command ends with the rows as they are |
| Commands.Tidyfs.RenamePayload | src/clean.rs:271-280 | the files become those after the rename or stay as they were when it was tried |
| Commands.Tidyfs.MoveIn | src/clean.rs:264-280 | on success the files are those after the rename and no row has changed; a changed source or a failed rename is recorded as such |
| Commands.Tidyfs.FingerprintMoved | src/clean.rs:289-297 | a payload that cannot be fingerprinted ends the command at once; a different fingerprint leads to the failure record |
| Commands.Tidyfs.CheckPayload | src/clean.rs:282-297 | on success the payload is in quarantine with the recorded fingerprint; otherwise the rows are as they were or say why |
| Commands.Tidyfs.RecordActionFailure | src/clean.rs:424-427 | the row becomes failed with its cause, or stays as it is when the database fails; the command is over either way |
| Commands.Tidyfs.CarryOut | src/clean.rs:230-300 | only the row of the action is written; on success it is quarantined, at its payload path, with the fingerprint it was inserted with |
| Commands.Tidyfs.QuarantineCandidate | src/clean.rs:214-301 | a run of the protocol; a table that has changed means that the candidate was of low risk, reversible, executable and within the scan root, and, while no other program writes, the scanned object on the quarantine's device; the id that comes back is the one the row was inserted under, and that row is quarantined at its payload path; every earlier row is as it was; when nothing goes wrong a candidate that passes the checks is quarantined, in fifteen statements, or fourteen when its directory is there already |
| Commands.Tidyfs.ExecuteInteractive | src/clean.rs:186-204 | every candidate gets its own run from the state the previous one left, until the process dies; the counters are the numbers of runs that succeeded and did not; undisturbed, all succeed and all are in quarantine |
| Commands.Tidyfs.RecordRestoreOutcome | src/restore.rs:244-252 | the row gets the status and the cause, or stays as it is when the database fails |
| Commands.Tidyfs.CheckRow | src/restore.rs:33-43 | passes exactly for a quarantined row that was not restored |
| Commands.Tidyfs.PayloadExists | src/restore.rs:45-50 | a payload that cannot be read counts as absent |
| Commands.Tidyfs.DestinationIsFree | src/restore.rs:52-57 | a destination that cannot be read counts as free |
| Commands.Tidyfs.VerifyIdentity | src/restore.rs:110-130 | passes exactly when the row has a supported fingerprint and the tree at the path has it; failing after the rename leads to the terminal record |
| Commands.Tidyfs.CanRestore | src/restore.rs:33-60 | a restore goes on only for a quarantined row with a payload path whose payload verifies; until then no row is written |
| Commands.Tidyfs.SetRestoringStatus | src/restore.rs:226-242 | the row says restoring, or the command ends with the rows as they are |
| Commands.Tidyfs.MakeParentDirs | src/restore.rs:63-70 | the parent of the destination is there in the end, or the failure record is next |
| Commands.Tidyfs.RenameOut | src/restore.rs:72-83 | the files become those after the rename or stay as they were when it was tried; a destination that exists is never replaced |
| Commands.Tidyfs.MoveBack | src/restore.rs:72-90 | on success the payload verifies at its place and no row has changed; otherwise the row is quarantined because of the rename, or failed because of the identity, or the record itself failed |
| Commands.Tidyfs.SetRestoredStatus | src/restore.rs:92-103 | the row says restored, with the time, exactly when success is reported |
| Commands.Tidyfs.RestoreAction | src/restore.rs:25-108 | a run of the protocol that writes only the row of its action; success means that the row was quarantined and is restored; undisturbed, a verified payload whose place is free is given back and its row restored, missing parents included |
| Commands.Tidyfs.SeeOriginal | src/recover.rs:257-263 | an inspection error ends the reconciliation; otherwise the flag is whether the original path exists |
| Commands.Tidyfs.SeeQuarantine | src/recover.rs:257-263 | the same for the payload path |
| Commands.Tidyfs.JudgeAction | src/recover.rs:92-98 | the verdict settles the row as the reconciliation matrix says for the two flags and what the payload holds, and never leaves the action interrupted |
| Commands.Tidyfs.DispatchAction | src/recover.rs:60-75 | only an interrupted row is reconciled; one without a quarantine path is given up without looking at the files |
| Commands.Tidyfs.WriteVerdictRow | src/recover.rs:118-126 | the one row is settled by the verdict, or no row changes |
| Commands.Tidyfs.ReconcileAction | src/recover.rs:59-99 | success means the row is settled, failure means no row changed; undisturbed, the row is settled as the reconciliation matrix says and no file changes |
| Commands.Tidyfs.RecoverEverything | src/recover.rs:37-56 | a success leaves no interrupted action; the failures it reports are the actions that ended as failed, and the other actions are the reconciled ones; undisturbed it succeeds, changes no file, and the table is the reconciled one whatever the order |
| Base.DecimalInjective | src/clean.rs:231 | distinct action ids have distinct directories |
| Base.DecimalReads | src/clean.rs:231 | the decimal text of an id reads as the id |
| Protocol.PlacesAreNamed | src/clean.rs:231-234 | an action's directory is `action-` and its id, with `payload` and `manifest.txt` in it |
| FileSystem.MovedTree | src/clean.rs:271 | after a rename the destination holds the tree the source held, and the source is gone |
| FileSystem.MovedKeepsAll | src/clean.rs:271 | a rename to a free place loses no entry |
| FileSystem.MakeDirsOnlyAdds | src/clean.rs:238-239 | create_dir_all adds directories and changes nothing else |
| FileSystem.RenameGoesThrough | src/clean.rs:271 | a rename goes through exactly when the source is there, neither path contains the other, the parent of the destination is a directory, and a destination that exists is of the same sort and empty |
| Admission.InsertedMeansAdmitted | src/clean.rs:214-231 | whatever happens during a clean: before its row is written, the candidate was low-risk, reversible, executable and within the scan root, the scanned object was at its path at the preflight and again after it was fingerprinted, and in between it was on the quarantine's device |
| Admission.RefusedLeavesTable | src/clean.rs:303-322 | a candidate that fails one of these leaves rows and ids as they were, whatever fails and wherever the command stops |
| Admission.InsertedIffAdmitted | src/clean.rs:214-231 | when its first five statements proceed and no other program writes, a clean inserts its action if and only if the candidate passes all of them |
| Admission.RenamedIsScanned | src/clean.rs:264-271 | what a clean renames is the scanned object: it was there at the last check, and since then only other programs have acted; if none has, it is there at the rename |
| Safety.RenameInCarries | src/clean.rs:271-280 | the quarantine rename keeps the invariant in every state it can happen in |
| Safety.CleanCarries | src/clean.rs:214-301 | every statement of a clean, succeeding or failing, keeps the invariant |
| Safety.RenameBackCarries | src/restore.rs:72-83 | the restore rename keeps the invariant |
| Safety.RestoreCarries | src/restore.rs:25-108 | every statement of a restore keeps the invariant |
| Safety.RecoverCarries | src/recover.rs:59-223 | every statement of a reconciliation keeps the invariant |
| Safety.StepCarries | src/clean.rs:264-299 | any step, crash, failure or outside write outside the quarantine keeps the invariant: quarantined rows have their recorded payload |
| Safety.RunCarries | src/clean.rs:264-299 | so does every run |
| Safety.StartCarries | src/main.rs:519-540 | any command may start in a state that satisfies the invariant; a clean needs its candidate outside the quarantine (H2) |
| Locking.ActCarries | src/mutation_lock.rs:10-39 | taking, holding, losing and releasing the lock keep the invariant over all processes; without the lock nothing runs |
| Locking.WorldCarries | src/main.rs:519-540 | so does every interleaving of processes and other programs |
| Locking.QuarantinedMeansIntact | src/clean.rs:264-299 | in every reachable state at most one command runs; a quarantined row names its payload path, and the payload there has the fingerprint of the row; only a row that was there from the beginning can lack one; restored_at is set exactly on restored rows |
| Locking.WorldKeepsTable | src/recover.rs:60-66 | over any sequence of commands, crashes, failures and outside writers no row goes away, no identity is rewritten, and restored and failed rows never change again |
| Locking.ActKeepsObjects | src/clean.rs:271 | while no manifest waits at the place of an action still to come, each act of any process moves at most one tree, to a place that was free, and loses no entry |
| Locking.WorldKeepsObjects | src/restore.rs:72-83 | conservation: over any sequence of clean, restore and recover commands by any processes, stopped and failing anywhere, every entry survives at its own place, with its node; no manifest may wait at the place of an action still to come, and none ever does |
| Locking.ActKeepsManifestsFree | src/clean.rs:252-253 | no act puts anything at the manifest path of an action whose manifest is not written yet |
| Locking.FreshIsGood | src/util.rs:161-163 | an empty table over a file system without a quarantine is a start, with no manifest waiting |
| Overwriting.WriteManifestKeepsObjectsIff | src/clean.rs:252-253 | the write of the manifest loses nothing if and only if its place was free or already held just that |
| Overwriting.RenameInKeepsObjectsIff | src/clean.rs:271 | the quarantine rename loses nothing if and only if the payload path was free |
| Overwriting.CleanKeepsObjectsIff | src/clean.rs:214-301 | H1 exactly, from the start of a clean to its end: a candidate that passes the checks is quarantined, and everything that was there can be found again if and only if the payload path was free and nothing but the same text was at the manifest path |
| Hypotheses.RenameInUndamagedIff | src/clean.rs:271 | whatever is renamed, the payload of another action is unchanged if and only if the candidate and that payload do not contain each other |
| Hypotheses.CleanKeepsQuarantineIff | src/clean.rs:303-322 | H2 exactly, from the start of a clean to its end: every candidate that passes the checks is quarantined when nothing fails, and what was quarantined before is unharmed if and only if the candidate is apart from each quarantined payload; the rows say the same either way |
| Hypotheses.EarlierActionIsClear | src/clean.rs:231 | such candidates pass: whatever lies in the directory of an earlier action is clear of the next one's |
| Hypotheses.CleanReadFaultIff | src/clean.rs:282-290 | a clean or its recovery that cannot read keeps the payload accounted for if and only if the statement is not a decisive check |
| Hypotheses.RestoreReadFaultIff | src/restore.rs:45-90 | the same for a restore |
| Hypotheses.UnreadMovedPayloadIsStranded | src/clean.rs:282-287 | from the start of a clean: a moved payload that cannot be inspected is given up as failed while it is in quarantine |
| Hypotheses.UnreadRestoredPayloadIsStranded | src/restore.rs:85-90 | from the start of a restore: a payload that cannot be read back is given up as failed at its place |
| Hypotheses.UnreadInterruptedPayloadIsStranded | src/recover.rs:110-117 | a payload that recovery cannot read is given up as failed while it is intact in quarantine |
| Hypotheses.UnreadDestinationIsStranded | src/restore.rs:52-57 | from the start of a restore: one that takes an occupied place for free and dies before the rename is given up by recovery, with the payload in quarantine and no file changed |
| History.StepFollowsEdges | src/clean.rs:406-422 | statuses move only along the edges the code takes, in any reachable state |
| History.StepKeepsObjects | src/clean.rs:271 | while no manifest waits at the place of an action still to come, each step moves at most one tree, to a place that was free, and loses no entry |
| Crash.CleanCaseStep | src/clean.rs:214-301 | between any two steps of a clean the payload is on exactly one side and the row says no more than is true, whatever fails but the one decisive read |
| Crash.CleanCaseRun | src/clean.rs:214-301 | the same over every run that leaves the two paths alone |
| Crash.RestoreCaseRun | src/restore.rs:59-102 | the same for a restore |
| Recovery.RecoverOne | src/recover.rs:59-223 | reconciling one action undisturbed takes five statements, or two without a quarantine path, and yields exactly the reconciled row; before the last it has changed nothing |
| Recovery.ReconciliationMatrix | src/recover.rs:101-223 | the whole matrix: for each kind of interruption and each of the four ways the two paths can exist, the final status, the column that says why, and the cause; an unreadable payload counts as a wrong one; no other row, no id and no file changes |
| Recovery.QuarantinedExactlyWhenMoved | src/recover.rs:107-154 | an interrupted clean ends as quarantined if and only if nothing is at its original path and the payload is there, readable, with the recorded version and fingerprint; otherwise as failed |
| Recovery.NoPathIsGivenUp | src/recover.rs:68-75 | an interrupted action without a quarantine path is given up without a look at the files |
| Recovery.CleanCrashAtomic | src/recover.rs:101-154 | a clean stopped anywhere and recovered, whatever fails but the decisive reads: quarantined with the payload only in quarantine, or failed with the payload only at its place |
| Recovery.RestoreCrashAtomic | src/recover.rs:156-223 | a restore stopped anywhere and recovered, whatever fails but the decisive reads: restored with the payload only at its place, or quarantined with the payload only in quarantine; an occupied place stays occupied and the action quarantined |
| Recovery.CleanThenRestoreIsIdentity | src/restore.rs:59-102 | whatever failed on the way, a clean and a restore that both succeed give back the tree at the original path and empty the quarantine path |
| Recovery.RecoveryConverges | src/recover.rs:24-57 | recovery leaves nothing interrupted, keeps every other row, and a second run changes nothing at any later time |
| Recovery.RecoverInOrderAt | src/recover.rs:40-48 | each row ends reconciled or as it was, whatever is reconciled before it |
| Recovery.RecoverInAnyOrder | src/recover.rs:265-280 | the outcome does not depend on the order of the actions |
| Cleaning.CleanSucceeds | src/clean.rs:214-301 | without failures a candidate that passes the checks is quarantined after exactly fifteen statements, fourteen when its directory is there already: payload, fingerprint and row are those of the source, and nothing else has changed |
| Restoring.RestoreSucceeds | src/restore.rs:25-108 | without failures the restore of a quarantined action with a verified payload and a free place succeeds after exactly nine statements and one for each directory that has to be made: its tree is back, the payload path is empty, the row says restored, and nothing else has changed |
| Restoring.CleanThenRestoreUndisturbed | src/restore.rs:59-102 | a clean and the restore of its action, both undisturbed, succeed and give back the whole file system, but for the action's own directory; neither success is assumed |
| Batch.OthersUntouched | src/clean.rs:189-203 | what is apart from the candidates taken so far is as it was, node for node |
| Batch.BatchSucceeds | src/clean.rs:189-203 | without failures the loop quarantines every candidate with the payload and fingerprint it had before the loop, and takes nothing else |
| Batch.BatchCountsAll | src/clean.rs:189-208 | and counts a success for each |
| Batch.BatchIgnoresOrder | src/clean.rs:189-203 | two orders of the candidates end with the same files outside the quarantine and the same payloads and fingerprints; only action numbers differ |
| Selection.LoadAllowed | src/clean.rs:439-525 | the stored rows canonicalized again, and of those exactly the unblocked ones, each with the scanned identity of its row |
| Selection.AllowedAreApart | src/clean.rs:487-491 | the allowed filesystem rows are pairwise non-overlapping |
| Selection.AllowedSays | src/clean.rs:487-525 | clean may act on a path if and only if it has a stored row, none of its rows is blocked, irreversible or never executed, and no other path with a row lies below it; its row is a stored one with its scanned identity, of the highest risk of the path |
| Selection.ChosenMeans | src/clean.rs:52-58 | what is handed to quarantine is such a path within the root, of a risk up to the threshold and never forbidden, with the stored scanned identity |
| Selection.Keep | src/clean.rs:53-59 | the filters keep exactly the rows that satisfy them, in order |
| Selection.FilterKeeps | src/clean.rs:138-142 | filtering keeps rows apart |
| Selection.CleanRunTakesExactlyTheChosen | src/clean.rs:189-203 | whichever allowed rows the filters and the limit leave, in whatever order, an undisturbed run quarantines all of them and nothing else |
| Rules.CanonicalizeHierarchy | src/rules.rs:123-254 | the result is canonical: one rightful decision per adapter row and per path, in row order |
| Rules.Partition | src/rules.rs:134-156 | adapter rows pass through, each path gets exactly its rows in order |
| Rules.Summarize | src/rules.rs:178-190 | highest risk and whether any row is blocked, non-reversible or not executable |
| Rules.FindReason | src/rules.rs:193-195 | the first text in the strictest-first order, if there is any |
| Rules.DecideGroup | src/rules.rs:158-219 | the representative comes before every other row of its path, and the block and its reason are those of all rows of the path |
| Rules.SortIndexesOrders | src/rules.rs:159-175 | the comparator sorts: every earlier row is at least as strict |
| Rules.MarkAncestors | src/rules.rs:229-237 | the parent walk marks exactly the entries strictly above a path |
| Rules.FindAncestors | src/rules.rs:228-238 | exactly the entries with another entry below them are marked |
| Rules.SuppressAncestors | src/rules.rs:240-249 | after suppression every decision is rightful with respect to all the rows |
| Hierarchy.OneDecisionPerPath | src/rules.rs:154-219 | a path has a decision exactly when it has a row, and never two |
| Hierarchy.ExactMeaning | src/rules.rs:123-254 | unblocked exactly when every row is unblocked, reversible and quarantine or trash and nothing lies strictly below; risk is the maximum; a block has a reason |
| Hierarchy.SpeakerIs | src/rules.rs:159-175 | the row that speaks for a path comes first by risk, then blocked before unblocked, irreversible before reversible, non-executable before executable, then by rule name and position |
| Hierarchy.AdaptersPassThrough | src/rules.rs:134-147 | adapter rows come out unchanged, each once |
| Hierarchy.AvailablePathsAreApart | src/rules.rs:222-249 | the unblocked paths form an antichain |
| Hierarchy.CanonicalIsUnique | src/rules.rs:123-254 | the rows determine the decisions, reasons included |
| Hierarchy.CanonicalizationIsMonotone | src/rules.rs:154-182 | adding rows never unblocks a path or lowers its risk |
| Hierarchy.CanonicalizationIgnoresOrder | src/rules.rs:228-249 | neither the order nor the repetition of rows matters to a path's risk and block |
| Hierarchy.CanonicalRowsAreSettled | src/plan.rs:199-215 | the rows a plan keeps already show every restriction and overlap as a block |
| Hierarchy.KeptRowSays | src/plan.rs:199-215 | a kept row is its stored row with the risk and block of the decision, and with the reason exactly when it is blocked |
| Hierarchy.SettledRowsStay | src/clean.rs:493-525 | canonicalizing them again changes no path, risk or block |
| Planning.CollectCandidates | src/plan.rs:86-117 | exactly the rows of the indexed paths within the root, rule by rule |
| Planning.MatchRules | src/plan.rs:96-116 | one row for each matching rule, in rule order |
| Planning.RowsOfItems | src/plan.rs:89-117 | a row is there if and only if some indexed path within the root and some matching rule give it |
| Matching.RowsComeFromRules | src/plan.rs:314-360 | every row comes from an indexed path within the root and a rule all of whose conditions it meets: label, substring of the slash-joined path, last component, minimum size, and age in days; it is blocked exactly for a protected label, a forbidden risk or one above the threshold |
| Matching.RulesMakeRows | src/plan.rs:314-360 | and each such path and rule make a row |
| Matching.PathTextIs | src/plan.rs:327-335 | the text that substrings are looked for in: the components, each after a slash |
| Matching.AgeTest | src/plan.rs:349-357 | the age test is at least the days in seconds, with the cut-offs and the sign change of 64-bit arithmetic |
| Matching.WaitingKeepsRows | src/plan.rs:349-357 | waiting longer loses no row |
| Matching.OlderKeepsRows | src/plan.rs:349-357 | an older modification loses no row |
| Matching.BuiltinRulesWait | rules/default.yaml:1-208 | the ages of the built-in rules |
| Matching.LowRiskRowsAreOld | rules/default.yaml:1-54 | with rules like the built-in ones, nothing modified in the last thirty days is a candidate of low risk, but for Python's compiled files |
| Planning.CanonicalizePlan | src/plan.rs:184-216 | the plan's rows are the kept rows of the canonical decisions, with their sizes |
| Planning.EligibleSizes | src/plan.rs:243-256 | the paths the provider may be asked about, each with the largest size of its rows, which one of them has |
| Planning.SelectLargest | src/plan.rs:258-264 | the largest, equal sizes by path, up to the limit, each once; none that is left out is larger than one that is taken |
| Planning.Consult | src/plan.rs:266-285 | one answer per selected path; any failure ends the analysis |
| Planning.ApplyEvidence | src/plan.rs:293-309 | every row of an analyzed path, and no other, gets the conservative policy |
| Planning.AnalyzePlan | src/plan.rs:232-312 | the enriched plan, with evidence only about paths with an unblocked, reversible quarantine row, at most the limit, and what the provider said of that path |
| Planning.FindFacts | src/plan.rs:268-276 | the indexed facts of a path, if there are any |
| Authority.ProposalOnlyTightens | src/ai_planning.rs:78-153 | a proposal keeps path, action and reversibility, never lowers the risk, and leaves available exactly what was available, confidently accepted and within the threshold |
| Matching.ProposalMeans | src/ai_planning.rs:78-153 | the row after a proposal, case by case: a high verdict makes the risk at least high, a medium one at least medium, a low one leaves it; the row is blocked exactly when it was, may not be executed, is not confidently assented to, or its risk is now above the threshold |
| Authority.RunPlan | src/plan.rs:53-182 | a plan is the canonical result of the matching rules and adapter rows, enriched by evidence or not at all |
| Authority.EnrichmentKeepsSettled | src/plan.rs:292-309 | the AI pass keeps a plan settled |
| Authority.CleanSeesThePlan | src/clean.rs:487-525 | re-canonicalizing the stored plan, in any order, changes no path, risk or block |
| Authority.AiOnlyReducesAuthority | src/plan.rs:139-158 | for any proposals: what clean may take with AI it could have taken without, no risk is lower, and the paths are the same |
| Authority.ProtectedLabelsAreReported | rules/default.yaml:121-209 | the built-in rules report every protected label without further condition |
| Authority.ProtectedIsBlocked | src/plan.rs:362-395 | in a plan every path that is or contains protected data is blocked, for every root and threshold |
| Authority.ProtectedDataIsSafe | src/rules.rs:222-249 | with any rules that report the protected labels, any proposals and any stored order, no path clean may take is or contains an indexed path with a protected label |
| Protection.ProtectedSurvivesClean | src/clean.rs:189-203 | from the index to the end of an undisturbed clean: every indexed path with a protected label is still there with its node, and its tree is unchanged if and only if no chosen path lies inside it |
| Classified.GroupRows | src/ai_facts.rs:163-173 | the grouping loop merges the rows of each path |
| Classified.LoadCandidates | src/ai_facts.rs:109-182 | one item per classified path, labels sorted, without repetition and capped |
| Classified.GatheredSays | src/ai_facts.rs:195-214 | merging keeps the lowest entry id, the largest size, the latest modification, the earliest observation and all labels |
| Classified.FactsIgnoreOrder | src/ai_facts.rs:175-182 | the facts of a path depend on its rows only as a set |
| Classified.ObservationIgnoresRowOrder | src/ai_facts.rs:37-70 | so does the observation the provider sees |
| Classified.ObservationSays | src/ai_facts.rs:37-70 | the observation carries the lowest entry, the largest size, the age from the last modification to the earliest observation, none for a later modification, all kept labels, a single label as the classification, and whether one is protected |
| Classified.CapKeepsFirst | src/ai_facts.rs:175-182 | at most 32 labels, sorted and without repetition; the first ones are kept |
| Classified.NoLabelIsDropped | src/ai_facts.rs:178 | the classifier's 25 labels are fewer than the cap, so the cap drops none |
| Classified.ClassifiedDataIsSafe | src/classify.rs:116-325 | from classifier rows to clean: no path clean may take is or contains a path that was given a protected label |
| Encoding.BigEndianRoundTrip | src/ai_contract.rs:204 | big-endian integers read back |
| Encoding.HighDigitsAreLost | src/identity.rs:129 | a counter that wraps at its width encodes as the unbounded one does |
| Encoding.Be64Injective | src/ai_contract.rs:42-54 | 64-bit encodings are injective, signed or unsigned |
| Encoding.FrameIsPrefixFree | src/ai_contract.rs:203-206 | a frame can be told apart from what follows |
| Observation.CanonicalBytes | src/ai_contract.rs:39-70 | the loop appends exactly the frames of the fields, labels sorted and counted |
| Observation.FramesInjective | src/ai_contract.rs:203-226 | the bytes determine the sequence of frames |
| Observation.CanonicalBytesIdentify | src/ai_contract.rs:39-70 | equal bytes if and only if all fields agree and the labels are equal as sets |
| Recommending.Load | src/recommend.rs:191-217 | the rows within the root, or the first of them that cannot be read |
| Recommending.ReadRowsSays | src/recommend.rs:196-202 | reading succeeds exactly when every row within the root has a size and a risk; it keeps every field, and rows outside the root are never looked at |
| Recommending.FirstUnreadable | src/recommend.rs:198-204 | an error is that of the first row within the root that has a negative size or no valid risk, the size being looked at first |
| Recommending.Consider | src/recommend.rs:226-279 | a candidate exactly for an available path; it carries the highest risk, the first row of that risk by rule and id, and the largest size |
| Recommending.Candidates | src/recommend.rs:225-279 | one candidate for every available path and no other |
| Recommending.TruncationKeepsLargest | src/recommend.rs:281-290 | sorting, truncating and sorting again keeps the largest, ties by path and id, in id order |
| Recommending.LoadEligible | src/recommend.rs:159-291 | the first unreadable row as an error, or the largest of the complete candidates, in id order: none that is dropped is larger than one that is kept, and equal sizes go by path |
| Recommending.RootFilterCommutes | src/recommend.rs:196-198 | filtering by root first does not change which paths within it are leaf-most |
| Recommending.ImplementationsAgree | src/recommend.rs:191-279 | the offered paths are exactly the canonicalizer's available decisions within the root with only quarantine rows and an allowed risk, with the same risk and representative row |
| Recommending.Select | src/recommend.rs:331-351 | the selection in order, exactly when no id repeats and all are offered; otherwise the first offending id |
| Recommending.SelectedReclaimBytes | src/recommend.rs:353-360 | the exact sum, or an error exactly when it does not fit 64 bits |
| Scanning.Scan.constructor | src/scan.rs:99-100 | the root has totals from the start |
| Scanning.Scan.AggregateRecord | src/scan.rs:436-475 | the parent walk adds the record to exactly the directories at or above it within the root |
| Scanning.Scan.Receive | src/scan.rs:149-173 | every message is counted once, as an entry or an error; a record is aggregated even when its insertion fails |
| Scanning.ScanPath | src/scan.rs:88-190 | the reported total is the saturated sum of everything at or below the root |
| Scanning.TotalsAreSubtreeSums | src/scan.rs:436-475 | each directory's totals are min(2^64-1, sum over the records at or below it) and its counts are exact |
| Scanning.TotalsExist | src/scan.rs:436-475 | totals exist for the root and for every directory at or above a record, with the latest time |
| Scanning.OrderDoesNotMatter | src/scan.rs:149-153 | the totals depend on the records only as a multiset |
| Scanning.NothingIsLost | src/scan.rs:135-147 | whatever the interleaving, exactly the workers' messages arrive |
| Scanning.ResolveJobs | src/scan.rs:269-275 | the requested number of jobs, or else the machine's, but no more than there are children and at least one |
| Scanning.ChunkPaths | src/scan.rs:277-288 | round robin puts every child in exactly one chunk; no chunk is empty, and none has two children more than another |
| Scanning.ScanIgnoresSchedule | src/scan.rs:139-173 | every job count, listing order and interleaving gives each directory the same totals |
| Accounting.ApartPathsAddUp | src/scan.rs:436-475 | subtree sums of pairwise non-overlapping paths add up to no more than the root's |
| Accounting.RowsCarrySubtreeSums | src/plan.rs:101-114 | a filesystem row of a plan carries the subtree sum of its path |
| Accounting.SizeIsSubtreeSumIfItFits | src/ai_facts.rs:183-193 | an indexed path has the size of its subtree exactly when that is below 2^63; a larger one reads back as 0 |
| Accounting.LargeSizesAreRefused | src/recommend.rs:198-200 | a size from 2^63 on is stored as a negative one, which the recommender refuses |
| Accounting.PlanNeverDoubleCounts | src/plan.rs:458-461 | below 2^63, for every index, set of rules, root and threshold: the allowed filesystem candidates of a plan, with any proposals, together are no larger than the scan root |
| Accounting.OfferedIsAvailableInPlan | src/recommend.rs:225-279 | what is offered over a persisted plan, the plan left available: an unblocked, reversible quarantine row of the path, with the risk and rule of the offer |
| Accounting.PersistedPlanHasStoredSizes | src/plan.rs:408-432 | the rows a plan is stored as carry the subtree sums of their paths when they are read again |
| Accounting.SelectionNeverDoubleCounts | src/recommend.rs:331-359 | below 2^63, for every persisted plan and every accepted recommendation over it: the selection is no larger than the scan root, and its checked sum succeeds |
| Compression.XorBit | src/identity.rs:198-203 | exclusive or, bit by bit |
| Compression.AndBit | src/identity.rs:213-220 | conjunction, bit by bit |
| Compression.ShiftBit | src/identity.rs:200-203 | a shift moves every bit down |
| Compression.RotateBit | src/identity.rs:198-202 | rotate_right moves every bit of a 32-bit word down, around the end, and stays in 32 bits |
| Compression.FillSchedule | src/identity.rs:193-208 | the schedule loop computes the recursive message schedule of FIPS 180-4, section 6.2.2 |
| Compression.RunRounds | src/identity.rs:210-231 | the sixty-four rounds on eight variables are the recursive definition |
| Compression.CompressInto | src/identity.rs:179-236 | the in-place compression is the compression function |
| Compression.Sha256Sum | src/ai_contract.rs:237-312 | the one-shot function over the in-place compression is SHA-256 of the input, in 32 bytes |
| Fips180.NotBit | src/identity.rs:213 | the complement, bit by bit |
| Fips180.ChoiceBit | src/identity.rs:213 | each bit of the choice is that of `f` where `e` has a one and that of `g` elsewhere |
| Fips180.MajorityBit | src/identity.rs:220 | each bit of the majority is a one exactly when at least two of the three are |
| Fips180.BigSigma0Bits | src/identity.rs:219 | the parity of the bits 2, 13 and 22 places up, around the end of the word |
| Fips180.BigSigma1Bits | src/identity.rs:212 | the parity of the bits 6, 11 and 25 places up, around the end of the word |
| Fips180.SmallSigma0Bits | src/identity.rs:198-200 | the parity of the bits 7 and 18 places up around the end and 3 places up within the word |
| Fips180.SmallSigma1Bits | src/identity.rs:201-203 | the parity of the bits 17 and 19 places up around the end and 10 places up within the word |
| Fips180.BitsDetermine | src/identity.rs:198-220 | a word is determined by its bits, so these determine the functions |
| Fips180.ScheduleEquations | src/identity.rs:193-208 | FIPS 180-4, section 6.2.2, step 1: the words of the block, most significant byte first, then sums of four modulo 2^32 |
| Fips180.RoundEquations | src/identity.rs:210-231 | step 3: the two sums modulo 2^32 and the six moves of each round |
| Fips180.CompressEquations | src/identity.rs:233-235 | step 4: the working variables are added to the state |
| Fips180.RoundsStayInWords | src/identity.rs:210-231 | the working variables are 32-bit words all along |
| Fips180.RoundConstantsAreCubeRoots | src/identity.rs:180-191 | section 4.2.2: each constant is the first 32 bits of the fractional part of the cube root of its prime |
| Fips180.InitialWordsAreSquareRoots | src/identity.rs:118-121 | section 5.3.3: the initial words, of the square roots of the first eight |
| Fips180.PrimesAreTheFirst | src/identity.rs:180-191 | those primes are the first sixty-four |
| Fips180.PaddingIs | src/ai_contract.rs:260-268 | section 5.1.1: a one bit, the fewest zeros that fit, the length in 64 bits |
| Fips180.DigestIsLastState | src/ai_contract.rs:270-312 | the digest is the last of the states that begin with the initial words and take one compression for each block |
| Fips180.WordBytes | src/ai_contract.rs:305-311 | its bytes, most significant first |
| Sha256.PadMessage | src/ai_contract.rs:260-268 | the padding loop stops at the padding of FIPS 180-4, section 5.1.1 |
| Sha256.OneShot | src/ai_contract.rs:237-312 | the one-shot function hashes the padded message block by block |
| Sha256.Hasher.constructor | src/identity.rs:116-126 | a fresh hasher has absorbed nothing |
| Sha256.Hasher.Update | src/identity.rs:128-153 | update appends its input exactly when no block is begun or the begun one fills, and otherwise drops the begun block and the input; the buffer never holds a full block; the length counts everything given |
| Sha256.Hasher.UpdateRepaired | src/identity.rs:131-142 | with an early return for an unfinished block, update always appends |
| Sha256.Hasher.Finalize | src/identity.rs:155-177 | the digest of the padded absorbed message under the given length, in one or two last blocks |
| Identity.OneUpdateIsOneShot | src/ai_contract.rs:237-312 | a fresh hasher given a byte string in one update yields its one-shot digest |
| Identity.UpdatesHashAllExactlyWhenTheyFit | src/identity.rs:128-153 | successive updates hash the concatenation if and only if each starts on a block boundary or fills the begun block |
| Identity.HashEntry | src/identity.rs:13-55 | the recursion gives the hasher exactly the pieces of the tree, children by name |
| Identity.ChunksAreStream | src/identity.rs:13-66 | the pieces put together are the identity stream, however the files were read |
| Identity.Fingerprint | src/identity.rs:7-11 | the fingerprint is the digest after those updates |
| Identity.FingerprintPath | src/identity.rs:7-11 | over the compression of FIPS 180-4, in 32 bytes |
| Identity.RepairedFingerprint | src/identity.rs:7-11 | with the repaired update it would be SHA-256 of the identity stream |
| Identity.NoStreamIsHashedWhole | src/identity.rs:57-65 | for no tree at all is the whole identity stream hashed: the kind is always dropped |
| Identity.FileMessage | src/identity.rs:18-33 | of a single file the length and contents are hashed if and only if every read keeps them |
| Identity.BufferedFileMessage | src/identity.rs:24-33 | with reads that fill the 64 KiB buffer, exactly what is hashed: everything, or everything but the last read and the eight bytes before it |
| Identity.BufferedFileIsHashedIff | src/identity.rs:24-33 | the length and contents are hashed whole if and only if the length modulo 65536 is 0 or at least 56 |
| Identity.FingerprintIsOfTheTree | src/identity.rs:13-55 | with every file read in full, trees with the same contents have the same fingerprint, whatever the order of their listings |
| Identity.OnePieceFilesDifferFrom56BytesOn | src/identity.rs:24-33 | two files of one length, read in one piece, differ in what is hashed if and only if they differ and have at least 56 bytes |
| Identity.SmallFilesShareTheirFingerprint | src/identity.rs:131-152 | files of one length below 56 bytes have one fingerprint, for every compression function |
| TreeEncoding.ItemsAreContents | src/identity.rs:34-45 | the visit yields exactly the places of the tree with what is there |
| TreeEncoding.ItemsInOrder | src/identity.rs:39 | the visit is in path order, whatever the listing order |
| TreeEncoding.JoinedInjective | src/identity.rs:43 | relative paths of slash-free names can be told apart |
| TreeEncoding.EntryIsPrefixFree | src/identity.rs:57-65 | an entry can be told apart from what follows it |
| TreeEncoding.StreamInjective | src/identity.rs:13-55 | the stream is uniquely decodable into its entries |
| TreeEncoding.StreamIdentifiesTree | src/identity.rs:13-55 | equal streams if and only if equal kinds, names, contents and link targets (of other kinds the length), independent of listing order |

## Left out

- SQLite, SQL text, migrations and transactions: tables are maps and sequences whose writes succeed or fail as a whole.
- System calls and their errors: `rename`, `renameat2`, `mkdir`, `stat` and `flock` are steps with their documented effect; error texts and operator output are not modelled.
- Symlinks on the way to a path: a path names its components, so a path through a symlinked ancestor, and `Path::exists` following a symlink at its end, are not captured.
- The text of the manifest and of error messages: the manifest is an arbitrary byte string, errors are kept as causes.
- The creation of the quarantine root before the loop of `execute_interactive` and the confirmation prompt: a clean starts after them.
- The size order and the limit of `run_clean`: `Selection.CleanRunTakesExactlyTheChosen` holds for every selection and every order of the allowed rows.
- `restore --latest` and the loading of one action by its timestamp: an action is given by its id.
- The classifier's string patterns, path redaction, byte formatting and terminal escaping: labels and shown paths are given, apart from the list of labels.
- The HTTP gateway, its JSON and its field validators: a provider is any function from facts to an optional proposal, and its validators, like the digest check of a response, are part of that function.
- The goal request, its digest and the re-reading of the plan after inference (src/recommend.rs:88-126): a selection is judged against the candidates it is given.
- Loading the facts of one path only and re-deriving a bound observation (src/ai_facts.rs:27-35, 72-99): the same merging over the rows of that path.
- Adapters and their candidates: any rows with an adapter target.
- The final display order of a plan and the text of its reasons: the rows are the same in any order, and rule reasons are reduced to their kind.
- Walking the directory tree (`scan_worker`, `should_descend`, `record_from_path`): each child's walk is any sequence of messages.
- The 64-bit wrap of the file, directory and symlink counters: they count entries one by one.
- Non-UTF-8 and relative paths: a path is an absolute sequence of byte-string components.
- The modification time of a file and the clock: the time now is a parameter.
- Short reads of a regular file: `Identity.FileMessage` covers every way of cutting a file into reads, `Identity.BufferedFileMessage` the one in which each read fills the buffer.
- Hash collisions: nothing is assumed about the compression function.
- Files whose length changes while they are read: the length field is the number of bytes read.
