# Verified model of the backup, glob, scanner and replay logic

This project models the parts of the repository whose correctness depends on many steps agreeing with
each other, and proves what they promise. `dafny verify dfyconfig.toml` checks all of it.

## What is modelled

**Backup, restore and pruning.** A directory tree is a map from paths to entries. `BackupSets` says
what a backup run writes and what restore verifies and stages; `RoundTrip` proves the two inverse to
each other and says exactly which damage is refused; `Acceptance` says item by item which sets are
accepted and place by place what a deployment gets back. `ManagedPaths` holds the walk over the live
destination as an object that copies and one that counts, each proved equal to a flat filter.
`StagedTrees` says what the staged tree ends up holding. `Disk` is a volume with the destination, the
staging, aside and failed directories, the journal and the lock file; every rename, write, unlink and
deleted entry is one step, fails exactly when a script of faults says so, and is recorded in a ghost
trail of disk images, so that a statement about the trail is a statement about a process death between
any two steps. `Restore` runs the protocol on it under any script: staging, the two renames, the commit
window and the rollback ladder. `Recovery` holds what an operator does after a crash, and `Scenarios`
the scripts and destinations on which something falls short. `TagLedger` follows the table tags over any
sequence of successful backups, failed backups and sweeps.

**The glob compiler.** `Regex` gives a denotational meaning to the fragments the compiler emits, `Globs`
gives globs an independent meaning over path segments, and `GlobCompiler` proves that the index loop
over characters emits a regex with the segment meaning.

**The source scanner.** `Scanner` has the string and comment skipper, the search for code, the balanced
reader and the one-pass block extractor; `Blanking` the in-place comment blanking; `Lexing` says by how
text is spelled where its strings and comments end. The main results relate one scanner to another.

**Supporting programs.** `Migration`: the decision ladder and the crash-ordered writes of the embedding
migration. `YamlScalars` and `YamlJobs`: quoted scalars and job names. `SettingsReplay`: the two-pass
replay of stored settings against the cross-field validators. `Reconciler`: report, plan, protection and
the sequential deletes. `BasePath` and `Segments`: normalization and the proxy paths.

Faults are an input of every program that writes: which of its steps fail is a set that the statements
quantify over. The order of a directory listing and what a failed write leaves are nondeterministic.
Random tokens are assumed new. Digests are injective and decryption inverts encryption under the same
key.

## Findings

- The patterns `**/` and `/**/` compile to a regex that accepts no path, although `**` is documented to
  match any number of segments. For every other class-free pattern the regex and the segment meaning
  agree on every normal path (`GlobCompiler.MeaningPreservedExactly`).
- The message of a restore that finds a leftover journal says that without an aside directory no rename
  happened, so that rolling back means leaving the destination alone. For a destination that did not
  exist before and has already been put in place this does not restore the original; docs/operations.md
  adds the check on the staging directory and is right (`Recovery.MessageRecoversExactly`,
  `Recovery.RollBackRecovers`; every restore into an absent destination passes through such an image,
  `Scenarios.RestoreNewDestination`).
- When an existing destination cannot be moved aside, staging is deleted while the journal is still on
  disk (scripts/restore.py:872). A crash inside that deletion leaves a journal and an incomplete staging
  tree, and the documented roll-forward would install it (`Scenarios.FailToMoveAside`). With a staging
  directory on disk rolling forward is right exactly when the original is seen aside or did not exist
  (`Recovery.StagedRollForwardExact`).
- When a table cannot be persisted and the destination cannot be renamed, the destination is deleted in
  place while the journal still says `commit` (scripts/restore.py:991-994). A crash inside that deletion
  looks like a commit cut short, and serving the tables again would finish an incomplete tree
  (`Scenarios.FailToPersist`). With the swap done, serving again is right exactly when the commit had not
  begun or there is no table to serve (`Recovery.SwappedRollForwardExact`), and for a given image exactly
  when no file is missing (`Recovery.ServingForwards`). Rolling back is right in both cases.
- An unmanaged plain file that stands where the set needs a directory is not preserved in place: it
  lands inside the staged directory, or the copy fails. Everything survives exactly when no unmanaged
  file stands above a managed root (`StagedTrees.UnmanagedSurvivesExactly`; a file named `vaults` is
  such a file, `Scenarios.FileNamedVaults`).
- The skeleton of a fileless vector tree is not recorded, so only its root comes back
  (`Acceptance.DeploymentRestores`).
- When the crash journal cannot be written, the staged tree, decrypted database included, is left beside
  the destination (`Restore.RestoreLocked`); every other failure without a journal clears it.
- Validating stored settings one key at a time applies a valid pair of chunk size and overlap exactly
  when the old overlap is below the new size, which is what the joint pass is for
  (`SettingsReplay.OneKeyAtATimeExact`).
- The stale-scale delete hits rows with an empty scale that the planned count leaves out; the two agree
  exactly when there are none (`Reconciler.PlannedStaleExact`).

## Model

| member | source | states |
|---|---|---|
| Restore.RestoreBackupSet | scripts/restore.py:601-1073 | Under any script of faults: a run returns if and only if its set is accepted and no step fails that the outcome depends on, and has then left the staged set with every tagged table served; it ends with a journal if and only if the journal was written and the run is stuck, which is said fault by fault; without a journal an error leaves the destination as it was. A journal left comes with the lock, and the original whole at aside or still in place. Nothing is left beside the destination when the clean-ups get through. Every disk image on the way is untouched or crash safe. A lock or journal already there refuses the run and changes nothing else. |
| Restore.RestoreLocked | scripts/restore.py:645-1073 | The same between taking the lock and giving it back; the lock is gone whenever no journal is left and removing it does not fail; staging is gone unless the journal could not be written. |
| Restore.SwapAndCommit | scripts/restore.py:862-1060 | From the written journal on, the run raises if and only if a step fails before its removal, and keeps the journal if and only if it is stuck. |
| Restore.SetAside | scripts/restore.py:864-908 | Moving the original aside fails exactly when the move or its record does; the original stays aside exactly when it cannot come back; the journal goes at once exactly when a recorded failure is undone. |
| Restore.UndoSetAside | scripts/restore.py:888-908 | The original goes back unless its rename fails, and the journal goes with it unless its removal fails. |
| Restore.SwapIn | scripts/restore.py:862-919 | Both renames: on success the staged tree is in place and the original aside; it fails exactly when one of its steps does, and then leaves the original aside exactly when undoing fails. |
| Restore.Swap | scripts/restore.py:862-955 | A failed swap keeps its journal exactly when the original is left aside or the journal cannot be removed; otherwise the destination is as it was and staging is cleared. |
| Restore.RollBackCommit | scripts/restore.py:988-1033 | The ladder keeps the journal if and only if the restored tree is not cleared, the original does not go back, or the journal cannot be removed; otherwise the original is back; the restored tree is kept as failed whenever it could be renamed. |
| Restore.PutBackOriginal | scripts/restore.py:1004-1020 | The last rungs keep the journal exactly when the destination is still there, the original does not go back, or the journal cannot be removed. |
| Restore.PersistTables | scripts/restore.py:956-984 | Tables are served in order up to the first fault; with none, all are. |
| Restore.CommitWindow | scripts/restore.py:956-1049 | Raises if and only if recording the commit, a table or dropping the journal fails; keeps the journal exactly when one of the two records fails or the ladder is stuck; a closed run leaves no original aside. |
| Restore.Stage | scripts/restore.py:690-846 | Staging touches nothing but the staging directory; it succeeds if and only if the set is accepted and every write gets through; the directory then holds the verified set plus all surviving content, and otherwise is deleted. |
| Restore.RestoreLock.Acquire | scripts/restore.py:133-146 | Succeeds if and only if there was no lock file and neither creating nor writing it fails; nothing but the lock file changes. |
| Restore.RestoreLock.Release | scripts/restore.py:148-157 | Changes nothing but the lock file, and never creates one. |
| Recovery.RollBackRecovers | docs/operations.md:264-294 | From every disk image a crash can leave with a journal, the documented roll-back gives the original destination, no journal and no lock. |
| Recovery.MessageRecoversExactly | scripts/restore.py:180-197 | The roll-back as the refusal message words it recovers the original if and only if the journal says that the destination existed or the destination is absent. |
| Recovery.StagedRollForwardExact | docs/operations.md:276-285 | With a staging directory on disk, rolling forward gives the restored destination from every crash image that shows the same, if and only if an aside directory is there or the destination did not exist. |
| Recovery.SwappedRollForwardExact | docs/operations.md:286-292 | With the swap done, serving every table again gives the restored destination from every crash image that shows the same, if and only if the journal does not say `commit` or there is no table to serve. |
| Recovery.StagingForwards | docs/operations.md:276-285 | Rolling a staging directory forward gives the restored destination if and only if the staged tree is whole, as it is once the original is out of the way. |
| Recovery.ServingForwards | docs/operations.md:286-292 | Serving the tables again over any partly served destination gives the restored one if and only if no file of it is missing. |
| Recovery.DestinationNeverLost | docs/operations.md:264-303 | Over any number of restores, each cut short anywhere and rolled back as documented, the destination is always the original or what some restore of the sequence had fully installed. |
| Recovery.FailedRunUndone | scripts/restore.py:915-1033 | A failed run of which no undoing step fails, and whose commit could be recorded and closed, leaves no journal and the destination as it was. |
| Scenarios.RestoreNewDestination | scripts/restore.py:909-910 | Every fault-free restore into an absent destination passes through an image from which the message's roll-back keeps the new tree and the documented one recovers. |
| Scenarios.FailToMoveAside | scripts/restore.py:866-880 | When an existing destination cannot be moved aside, the run passes through an image whose staging directory is incomplete: rolling back recovers, rolling forward does not restore. |
| Scenarios.FailToPersist | scripts/restore.py:985-1004 | When the first table and then the rename of the destination fail, the run passes through an image of the commit phase from which serving the tables again does not restore, and rolling back recovers. |
| Scenarios.FileNamedVaults | scripts/restore.py:554 | A deployment with a vault, restored over a destination with a plain file named `vaults`: the set is accepted and the file does not survive. |
| Scenarios.FreshRun | scripts/backup_set.py:222-361 | A fresh set is accepted into an absent or empty destination, and the run serves exactly the tables that were tagged. |
| Scenarios.RestoredTablesServed | scripts/restore.py:962-982 | A restored deployment serves every table at the tag its backup gave it. |
| Disk.ServeAllServes | scripts/restore.py:962-982 | After a sequence of checkouts every table serves its last tag, tables not named what they served before, and no file changes. |
| Disk.DistinctTablesServed | scripts/restore.py:962-982 | With one entry a table, every entry is served. |
| Disk.ServeAllFinishes | docs/operations.md:286-289 | Serving all tables again after any prefix of them gives what serving them once gives. |
| Disk.Volume.Rename | scripts/restore.py:866-913 | A rename moves one directory whole to a free name, exactly when its step does not fail, or changes nothing. |
| Disk.Volume.RemoveTree | scripts/restore.py:1042-1049 | Recursive deletion passes through images that differ only in having lost entries of that directory, wherever it stops; without a fault the directory is gone. |
| Disk.Volume.WriteJournalFile | scripts/restore.py:343-369 | The journal is there whole or not at all. |
| Disk.Volume.UpdatePhase | scripts/restore.py:372-386 | Only the phase changes, or nothing. |
| RoundTrip.AcceptedExactlyWhenIntact | scripts/restore.py:690-837 | Whatever has happened to a set, restore stages it if and only if the sealed database and every digest-listed file are unchanged and the key is the sealing one; what it then stages is given outright. |
| RoundTrip.BackupRestores | scripts/backup_set.py:222-361 | A fresh set is accepted and stages the database snapshot and every tree, skeletons of fileless vault and draft-room trees included, and nothing else. |
| RoundTrip.SetOfShape | scripts/backup_set.py:222-361 | The written set is a proper tree in which every backed-up tree is found at its path and every digest holds. |
| Acceptance.DatabaseAcceptedExactly | scripts/restore.py:1076-1146 | A set whose database has been replaced, digest and all, is accepted if and only if its trees are intact, the key is right, and the database has the generation bound by the vectors as a row and no newer index generation. |
| Acceptance.AcceptedExactly | scripts/restore.py:690-837 | A set whose places do not meet is accepted if and only if it has items, each passes every check (path, known kind, artifact, digests, decryption, reserved names, unlisted files), and its database matches the bound generation. |
| Acceptance.StagedMeansVerified | scripts/restore.py:690-818 | Even where places meet, nothing unverified is staged. |
| Acceptance.BindingExact | scripts/restore.py:1099-1104 | The binding is the generation of the first vector item. |
| Acceptance.VectorsAloneAccepted | scripts/restore.py:823-837 | A set without a database is accepted whatever generation its vectors bind. |
| Acceptance.DeploymentRestores | scripts/backup_set.py:222-361 | A fresh set brings back the database and every tree of the deployment at its own place, empty directories included, and nothing else, save the directories of a vector tree without a file. |
| Acceptance.ChangedFileRefused | scripts/restore.py:790-805 | A set in which any file of any tree of the deployment is missing or changed is refused. |
| Acceptance.ManagedRootsExactly | scripts/restore.py:417-435 | The managed roots are the database, if there is one, and the paths of the other items, and no others. |
| Acceptance.UnmanagedExactly | scripts/restore.py:438-556 | What survives is exactly what lies in no managed root, is no sidecar of a managed database at the root, and is no directory above a managed root. |
| RoundTrip.NewerDatabaseRefused | scripts/restore.py:1139-1146 | In particular a database with a newer index generation than the bound one is refused. |
| RoundTrip.ManifestBinding | scripts/backup_set.py:141-196 | The manifest binds the snapshot's latest generation exactly when it carries a vector tree. |
| RoundTrip.ManifestTablesExact | scripts/backup_set.py:222-361 | The manifest of a live deployment yields exactly its tagged tables when it has a vector tree, and none otherwise. |
| RoundTrip.SkeletonOfFileless | scripts/backup_set.py:199-219 | A fileless tree is rebuilt exactly from its recorded directories. |
| RoundTrip.ListedFilesExact | scripts/backup_set.py:80-89 | The digest check passes if and only if every listed file is there with its original content. |
| RoundTrip.PartsStage | scripts/restore.py:690-818 | Staging the tree items succeeds if and only if every one is intact, and yields all of them side by side. |
| BackupSets.LatestGeneration | scripts/backup_set.py:141-196 | The result is an index generation of the journal and no other has a greater id. |
| StagedTrees.StageSetInside | scripts/restore.py:417-435 | A set stages nothing outside its managed roots and the directories above them. |
| StagedTrees.MeetOnlyInClashes | scripts/restore.py:438-461 | Managed and surviving content meet only where a surviving file stands above a managed root. |
| StagedTrees.UnmanagedSurvivesExactly | scripts/restore.py:464-556 | All of the set and all unmanaged content survive in the staged tree if and only if no unmanaged file of the destination stands above a managed root; the tree is then the two together. |
| StagedTrees.AncestorsStaged | scripts/restore.py:690-818 | Every path above a managed root is a directory of the staged tree. |
| StagedTrees.ClashingFileLands | scripts/restore.py:554 | A surviving file that meets a staged directory lands inside it under its own name, unless the copy fails. |
| ManagedPaths.CopyUnmanaged | scripts/restore.py:464-556 | The pruned walk copies exactly the entries outside every managed root that are not root-level sidecars of a managed database. |
| ManagedPaths.UnmanagedCopy.Walk | scripts/restore.py:526-554 | One level of the walk adds exactly the kept entries below it, descending only above a managed root. |
| ManagedPaths.UnmanagedBytes | scripts/restore.py:559-593 | The estimate is the total size of exactly the files the copy will write. |
| ManagedPaths.OneEntrySize | scripts/restore.py:576-590 | A file weighs its length and a directory nothing. |
| ManagedPaths.ByteCount.Walk | scripts/restore.py:566-590 | One level of the counting walk adds the sizes of exactly the kept files below it. |
| ManagedPaths.NothingCoveredBelow | scripts/restore.py:442-461 | Below a directory that is neither covered nor above a root nothing is covered, so it may be copied whole. |
| TagLedger.BackupHost.RollBackTags | scripts/backup_set.py:124-138 | The live store loses exactly the created tags that are not reported, and reported are exactly those whose deletion fails. |
| TagLedger.BackupHost.CreateBackupSet | scripts/backup_set.py:364-445 | The run fails if and only if the set exists or a step fails. Success pins exactly the run's tags and lists the set; failure leaves the prior tags plus exactly the created ones whose deletion fails, and keeps staging exactly when any are left or it cannot be deleted. |
| TagLedger.BackupHost.FailBackup | scripts/backup_set.py:405-421 | Of the created tags exactly those stay whose deletion fails; staging goes exactly when none stays and deleting it does not fail. |
| TagLedger.BackupHost.ReleaseTags | scripts/cleanup_backups.py:113-158 | Only the given tags are released, and all of them when it succeeds, which it does unless the release of a tag on an existing table fails. |
| TagLedger.BackupHost.SweepOne | scripts/cleanup_backups.py:224-271 | A set is removed if and only if its manifest is usable and neither a release nor the removal fails, and only after every tag of it is gone from the live store. |
| TagLedger.BackupHost.Sweep | scripts/cleanup_backups.py:161-290 | A sweep releases tags of expired sets alone, and removes exactly the expired sets that are usable and whose release and removal do not fail. |
| TagLedger.BackupHost.ReleaseUnreferencedTags | scripts/cleanup_backups.py:293-340 | A live tag stays if and only if a link was skipped, a manifest is unusable, the tag lacks the prefix `backup-`, a remaining manifest lists it, or its deletion fails. |
| TagLedger.PairsExactly | scripts/cleanup_backups.py:86-97 | A manifest names exactly those of its tags that begin with `backup-`. |
| TagLedger.RunTagsNamed | scripts/backup_set.py:276-278 | A set of a run names every tag the run created, one for each table. |
| TagLedger.RunKeepsPinned | scripts/cleanup_backups.py:113-340 | Over every run of backups, failed backups, sweeps and orphan releases, each set never found expired has all its tags live and no two sets share a tag. |
| TagLedger.UnexpiredSetStaysPinned | scripts/cleanup_backups.py:224-271 | Until some sweep finds it expired, a set stays listed, unchanged and fully pinned. |
| TagLedger.SetLeavesUnpinned | scripts/cleanup_backups.py:224-271 | Whenever a set leaves the directory, it was expired and none of its tags is live. |
| GlobCompiler.MeaningPreservedExactly | scripts/check_secretscan.py:141-257 | For class-free patterns the compiled regex and the segment meaning agree on every normal, newline-free path if and only if the pattern is neither `**/` nor `/**/`. |
| GlobCompiler.CompilePreservesMeaning | scripts/check_secretscan.py:141-257 | The regex accepts a joined path if and only if the glob matches its segments: floating, anchoring, whole-segment `**` by position, directory patterns. |
| GlobCompiler.DoubleStarSlashMatchesNothing | scripts/check_secretscan.py:165-182 | On the two excepted patterns the regex accepts no path where the glob matches all. |
| GlobCompiler.BodyPreservesMeaning | scripts/check_secretscan.py:184-252 | The loop's output for a pattern body accepts exactly the paths the segment matcher does. |
| GlobCompiler.CompileBody | scripts/check_secretscan.py:184-252 | The index loop emits the fragments of the recursive compiler, character classes included. |
| GlobCompiler.GlobToRegex | scripts/check_secretscan.py:141-257 | The whole compiler emits the specified fragments in order. |
| GlobCompiler.ClassCompiled | scripts/check_secretscan.py:228-250 | A character class becomes one class fragment, negated exactly when its body begins with an exclamation mark, and the rest follows. |
| GlobCompiler.MatchesAny | scripts/check_secretscan.py:260-265 | The line returned belongs to the first pattern whose regex accepts the path; none is returned only when none accepts. |
| GlobCompiler.SkipsSegments | scripts/check_secretscan.py:172-211 | A run that skips leading segments stops exactly at segment boundaries. |
| Scanner.ReadBalanced | scripts/check_batch_mock_seq.py:142-163 | The loop computes the reader specified over scan positions. |
| Scanner.ReaderStopsAtFirstZero | scripts/check_batch_mock_seq.py:142-163 | The reader ends just past a position if and only if that is the first code closer at which code openers and closers balance. |
| Scanner.ObjectLiterals | scripts/check_batch_mock_seq.py:166-182 | The stack extractor returns, in order, the text between the braces of each block. |
| Scanner.ExtractorAgreesWithReader | scripts/check_batch_mock_seq.py:142-182 | A block is extracted if and only if its opener is a code brace at which the balanced reader ends just past its closer; blocks come in the order of their closers, each once. |
| Scanner.FindCodeOccurrence | scripts/check_batch_mock_seq.py:127-139 | The position returned is the first scan position outside strings and comments where the needle stands; none is returned only when there is none. |
| Scanner.SkipString | scripts/check_batch_mock_seq.py:95-107 | The loop ends where the escape-aware string ends. |
| Scanner.SkipComment | scripts/check_batch_mock_seq.py:110-117 | Both comment forms end where specified, unterminated ones at the end of the text. |
| Lexing.ClosedString | scripts/check_batch_mock_seq.py:95-107 | A string of characters other than backslash and its quote, and of backslashes that each cover one character, ends just past its closing quote, whatever follows. |
| Lexing.OpenString | scripts/check_batch_mock_seq.py:95-107 | Without a closing quote it takes the rest of the text, a lone last backslash included. |
| Lexing.StringForms | scripts/check_batch_mock_seq.py:95-107 | What follows an opening quote always has one of these forms. |
| Lexing.LineComment | scripts/check_batch_mock_seq.py:110-115 | A line comment ends just past its newline, or with the text. |
| Lexing.BlockComment | scripts/check_batch_mock_seq.py:116-117 | A block comment ends just past the first star and slash after its opening, or with the text. |
| Lexing.CodeCharacter | scripts/check_batch_mock_seq.py:120-124 | Everything else is code, one character at a time. |
| Blanking.BlankComments | scripts/check_batch_mock_seq.py:198-220 | Overwriting the character buffer comment by comment gives the specified blanked text. |
| Blanking.BlankSpan | scripts/check_batch_mock_seq.py:213-215 | Exactly the characters of the span that are not newlines become spaces, in place. |
| Blanking.BlankingPointwise | scripts/check_batch_mock_seq.py:198-220 | Same length; a character inside a comment becomes a space unless it is a newline; every other character is unchanged. |
| Blanking.ScansUnchanged | scripts/check_batch_mock_seq.py:198-203 | Reading a balanced group from any scan position and extracting all blocks give the same positions before and after blanking. |
| Blanking.BlankingIdempotent | scripts/check_batch_mock_seq.py:198-220 | Blanking twice is blanking once. |
| Blanking.NoCommentLeft | scripts/check_batch_mock_seq.py:198-220 | No comment starts at any scan position of the blanked text. |
| Migration.Host.RunMigration | scripts/migrate_embeddings.py:709-972 | The outcome is the ladder's decision; a refusal, a dry run and an early exit change nothing; every state passed through is the start or has its rows reset first; a run completes unless a write fails, and has then reset all rows and emptied the index. |
| Migration.Host.ResetStatuses | scripts/migrate_embeddings.py:596-702 | Every claiming row becomes pending with no chunks, in one transaction, and the count is the number of claiming rows. |
| Migration.ResetExactly | scripts/migrate_embeddings.py:596-702 | Exactly the rows that claim vectors become queued rows without chunks; no other row changes. |
| Migration.Host.Wipe | scripts/migrate_embeddings.py:293-306 | Deletion passes only through remnants of the index, wherever it stops. |
| Migration.ProbeSharedIds | scripts/migrate_embeddings.py:234-286 | Probing in batches answers whether any claimed id is in the index, and nothing when the index names no file. |
| Migration.NeverStrandsClaims | scripts/migrate_embeddings.py:888-951 | After every prefix of a run a row that still claims vectors still has all of them. |
| Migration.WipeFirstStrands | scripts/migrate_embeddings.py:888-951 | The opposite order of writes strands every claiming row that has chunks. |
| Migration.PlainRunExactly | scripts/migrate_embeddings.py:775-887 | Without --force a run goes if and only if the dimensions are known and differ, or the index is empty under claiming rows, and the gates pass; it finds nothing to do if and only if there is no index, the index is empty under no claim, or the dimensions are known and equal. |
| Migration.PlainRefusalsExactly | scripts/migrate_embeddings.py:775-860 | Each refusal that comes before the gates is given on exactly its inputs. |
| Migration.ForcedRunExactly | scripts/migrate_embeddings.py:775-887 | With --force a run goes if and only if the gates pass. |
| Migration.GatesExactly | scripts/migrate_embeddings.py:364-593 | The gates pass if and only if the database is the application's, not about another index, and no other process writes. |
| Migration.DestructionJustified | scripts/migrate_embeddings.py:775-887 | In particular, without --force a run writes only to repair an empty index under claiming rows, or over two known, different dimensions. |
| Migration.Converges | scripts/migrate_embeddings.py:709-972 | From every crash state of a run, running again (with --force on exit 3) leaves no claiming row and no vectors, and one more plain run changes nothing. |
| Migration.TriesConverge | scripts/migrate_embeddings.py:709-972 | However many tries are cut short, each with --force added on exit 3, the first that is not settles both stores, and one more plain run changes nothing. |
| Migration.TriesNeverStrand | scripts/migrate_embeddings.py:888-951 | Over any number of interrupted tries no row ever claims vectors it does not have. |
| Migration.SettledStays | scripts/migrate_embeddings.py:775-887 | A settled state is left alone by a plain run. |
| YamlScalars.StripYamlComment | scripts/check_runtime_contract.py:486-507 | The index loop computes the stripping whose results the next rows give for quoted, unclosed and plain scalars. |
| YamlScalars.CommentDropped | scripts/check_runtime_contract.py:507 | Plain text loses exactly the spaces and the comment after it. |
| YamlScalars.UnclosedKept | scripts/check_runtime_contract.py:493-506 | A quoted scalar that is never closed is kept as it is. |
| YamlScalars.QuotedRoundTrip | scripts/check_runtime_contract.py:475-507 | Any string written in double or single quotes (sections 7.3.1 and 7.3.2 of YAML 1.2.2) and followed by anything but a doubled quote reads back as itself. |
| YamlScalars.FirstReplace | scripts/check_runtime_contract.py:475-483 | The first of the two sequential replaces undoes the quote escapes of escaped text and leaves every doubled backslash. |
| YamlScalars.ClosesAtDelimiter | scripts/check_runtime_contract.py:493-506 | The scan of a quoted scalar closes at the delimiter that was written, past every escape. |
| YamlJobs.CiJobDisplayNames | scripts/check_runtime_contract.py:514-584 | The line loop computes the walk whose results and refusals the next rows give. |
| YamlJobs.PrintedJobsParseBack | scripts/check_runtime_contract.py:514-584 | A printed jobs map, its names quoted or plain, with comments or without, parses back to its display names in order, or the key where a job has no name or an empty one, whatever precedes it, whatever deeper lines lie between, and whatever follows. |
| YamlJobs.BadLineRefused | scripts/check_runtime_contract.py:547-578 | After any such map, a line indented with a tab, a list entry or flow mapping at job level, and a name that is an anchor, an alias or a block scalar are refused, each with its own error. |
| YamlJobs.FoldJobs | scripts/check_runtime_contract.py:560-584 | Each further job adds exactly its display name to what the walk has found. |
| SettingsReplay.Settings.LoadPersisted | backend/app/lifespan.py:202-427 | The settings end up as the specified replay of the stored rows, and valid if they were. |
| SettingsReplay.Settings.ReplayLegacy | backend/app/lifespan.py:211-235 | The legacy loop tries each key in turn against the whole. |
| SettingsReplay.Settings.ConvertRows | backend/app/lifespan.py:378-412 | The first pass collects exactly the known fields whose rows decode, with metric names canonicalized. |
| SettingsReplay.Settings.ApplyConverted | backend/app/lifespan.py:413-427 | Valid settings stay valid; every setting ends up with its row or the value it had; when the rows are jointly valid, every one of them is held. |
| SettingsReplay.ReplayKeepsValid | backend/app/lifespan.py:165-199 | Settings that satisfy the cross-field constraints satisfy them after the replay of any stored rows. |
| SettingsReplay.ReplayAppliesJointly | backend/app/lifespan.py:378-427 | When the decoded rows are jointly valid over what the legacy loop left, all are applied; otherwise each field holds its row or its old value. |
| SettingsReplay.LegacyRowApplied | backend/app/lifespan.py:211-235 | A legacy key with a row that decodes holds it if and only if the whole is valid at the key's turn, and keeps its value otherwise. |
| SettingsReplay.StoredLegacyRow | backend/app/lifespan.py:211-235 | The one stored row of any of the six legacy settings is applied exactly when the whole stays valid. |
| SettingsReplay.FallbackRowApplied | backend/app/lifespan.py:416-427 | In the fallback a field holds its row if and only if the whole is valid at the field's turn. |
| SettingsReplay.ConvertedExactly | backend/app/lifespan.py:378-412 | The rows taken are exactly those of listed, present fields that decode; the two old metric names become the new ones. |
| SettingsReplay.OneKeyAtATimeExact | backend/app/lifespan.py:182-199 | For any two valid pairs of chunk size and overlap, the joint pass applies the new pair, and one key at a time does if and only if the old overlap is below the new size. |
| SettingsReplay.ValidMeansCoherent | backend/app/config.py:1394-1432 | Of the values they carry themselves, accepted settings keep the chunk size positive and within the text limit, the overlap below it, the reclaim above four heartbeats, the stall above reclaim and parse deadline, the probe within its budget, and the sub-batch within the batch. |
| SettingsReplay.CompleteAcceptedExactly | backend/app/config.py:1394-1736 | Settings that carry all these fields are accepted if and only if they satisfy the constraints. |
| SettingsReplay.LoneFieldExactly | backend/app/config.py:1394-1736 | One field beside the defaults of the others is accepted exactly on its stated range. |
| SettingsReplay.LegacySizeApplies | backend/app/config.py:66-114 | A legacy chunk size stands in, at four characters a token, exactly when the replacement is null. |
| SettingsReplay.LegacyConversionExactly | backend/app/config.py:66-114 | The three legacy fields stand in for their replacements exactly where these are null, at their factors, and no other field but the metric is touched. |
| Reconciler.Run | backend/scripts/reconcile_lancedb_sqlite.py:478-584 | Without confirmation nothing changes. With it, a row is gone if and only if the plan gives a reason; orphans have chunks and are neither indexed or partial at the report, nor in one of the four protected statuses at plan and recheck; a vault with a processing file is spared; the deleted counts sum to the rows removed and each is at most its planned count, up to rows with an empty scale. |
| Reconciler.StatusesExactly | backend/scripts/reconcile_lancedb_sqlite.py:29-43 | The statuses that claim, that protect, and that are in flight. |
| Reconciler.ChunkCounted | backend/scripts/reconcile_lancedb_sqlite.py:185-190 | A file is counted exactly when a row is its chunk. |
| Reconciler.StaleSeen | backend/scripts/reconcile_lancedb_sqlite.py:233-238 | Rows are reported stale exactly when one has a named scale other than the default. |
| Reconciler.BuildReport | backend/scripts/reconcile_lancedb_sqlite.py:176-270 | The tallies are the true counts per file and per vault, the orphan ids are exactly the unclaimed ids with chunks, each once, and the stale count is that of rows off the default scale. |
| Reconciler.PlannedExact | backend/scripts/reconcile_lancedb_sqlite.py:406-420 | Each planned count is what its delete filter hits, save for rows with an empty scale. |
| Reconciler.PlannedOrphansExact | backend/scripts/reconcile_lancedb_sqlite.py:406-413 | For distinct ids the summed per-file counts equal what the one filter hits. |
| Reconciler.PlannedStaleExact | backend/scripts/reconcile_lancedb_sqlite.py:161-173 | The stale delete hits what the report counted plus the rows with an empty scale; they agree if and only if there is none. |
| Reconciler.Table.ApplyCleanup | backend/scripts/reconcile_lancedb_sqlite.py:289-315 | The sequential deletes leave exactly the rows no filter hits, in order, and their counts add up to the union. |
| Reconciler.Table.DeleteWithCount | backend/scripts/reconcile_lancedb_sqlite.py:278-286 | Exactly the rows hit are gone, they are counted, and none remains. |
| Reconciler.WithoutMore | backend/scripts/reconcile_lancedb_sqlite.py:289-315 | Deleting by one more filter from what earlier deletes left equals deleting by all, and counts only what was still there. |
| Reconciler.ProtectedFileIds | backend/scripts/reconcile_lancedb_sqlite.py:435-459 | The batched query equals the plain set filter. |
| Reconciler.RecheckAndApply | backend/scripts/reconcile_lancedb_sqlite.py:541-576 | The recheck drops exactly the ids protected by then, and a row is gone if and only if the rechecked plan gives a reason. |
| Segments.NormalizeKeepsSegments | frontend/vite.paths.ts:13-35 | Safe segments, padded with any slashes at the ends, normalize to a slash before each segment, unless the whole has the form of a URL, which is refused. |
| Segments.AcceptedForm | frontend/vite.paths.ts:13-35 | Nothing else is accepted: every accepted base is safe segments padded with slashes, and not in the form of a URL. |
| BasePath.NormalizeIdempotent | frontend/vite.paths.ts:13-35 | Normalizing an accepted base again changes nothing. |
| BasePath.NormalizedShape | frontend/vite.paths.ts:13-35 | An accepted base is empty or has one leading slash, no trailing one and no doubled one. |
| BasePath.RewriteInvertsProxyPath | frontend/vite.paths.ts:56-67 | For every accepted base, the proxied path followed by nothing or by a path is rewritten to the API's own path. |
| BasePath.RewriteLeavesOthers | frontend/vite.paths.ts:61-67 | With a non-empty base every request outside the proxied path passes unchanged. |

## Left out

- Restore.RestoreBackupSet: one run at a time. Releasing the lock twice without an owner check makes mutual exclusion of overlapping runs no theorem. The script names each step once a run, and a failed write leaves anything under the name it was writing.
- Restore.RestoreBackupSet: the manifest's schema check, path containment, backslash and symlink refusals, the held-database probe and the free-space check are not modelled; the run starts after them. Errors inside a failing step (temporary journal files, interrupts between a call and its assignment) are part of the step.
- Disk.Volume.Persist: a failed checkout or restore of a table leaves that table as it was, and a table handle is not modelled.
- Disk.Volume.RemoveTree: entries disappear one at a time in any order, directories included.
- RoundTrip.BackupRestores: the draft room and every vault under distinct names; AES, SHA-256 and SQLite are symbolic, and `_count_sqlite_rows` is not modelled.
- ManagedPaths.CopyUnmanaged: no symlinks, junctions or permission bits, and every size can be read (the code counts an unreadable one as zero).
- TagLedger.BackupHost.Sweep: which sets are expired is an input; modification times, retention and the legacy single-file backups are not modelled, nor is a set whose removal stopped half way and lost its manifest.
- TagLedger.BackupHost.ReleaseUnreferencedTags: staging sets of runs in flight are not counted as references, as in the code.
- TagLedger.RunKeepsPinned: says nothing about tags of a set once it has been found expired; a release that fails midway can leave such a set with some tags gone.
- GlobCompiler.MeaningPreservedExactly: no character classes (a negated class can match a slash) and no newlines in paths; the emitted regex is an abstract syntax tree, not text for Python's parser.
- Scanner.ObjectLiterals: the value and sequence checks that use the blocks are not modelled.
- Migration.Host.RunMigration: read locks, the name heuristics that recognise a backup copy (one constructor here), and optional columns of old schemas.
- YamlJobs.CiJobDisplayNames: works on lines; splitting text at Unicode line breaks is not modelled. White space is the ASCII part of what Python strips; its Unicode part is not modelled.
- YamlJobs.PrintedJobsParseBack: job keys are plain, and the key's line holds nothing else.
- SettingsReplay.ReplayKeepsValid: the cross-field constraints and the bound on the chunk size; other single-field bounds, the retrieval weights and the start-up secrets, which stored rows do not reach, and coercion of text to numbers are not modelled. Row decoders are parameters.
- Reconciler.BuildReport: the orphan ids come in some order, not sorted; mismatch and missing-row tables of the report, SQL text and quoting, null ids, index maintenance and a missing chunks table are not modelled. The chunks table is the one the report was built from.
- BasePath.NormalizeIdempotent: the proxy options object and `normalizeViteBase` are not modelled.
- The Docker, documentation and palette text checks, FastAPI wiring, command-line parsing and front-end components would add only easy members.
