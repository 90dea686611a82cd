# Verified models of the VLM feedback loop's release and recovery logic

This project models, in Dafny 4.11, the parts of the VLM feedback loop that move data around and must not
lose it: the public-snapshot export, opening and migrating databases, recovery of interrupted runs at start-up,
and the selection, validation and configuration algorithms around them. Each model follows its source file
branch by branch, and the theorems say what the file is for. `dafny verify dfyconfig.toml` checks everything.

Code that changes state is a class or a method with loops here too, and its contract ties the new state to the
old one; the laws about the specification functions are lemmas. What the main ones yield
is also said in terms of inputs and outputs alone. Failures come from an oracle: every file,
database or environment operation asks it how it ends, and nothing is assumed about its answers, so a theorem
about a method covers every choice of failing steps.

| file | models |
|---|---|
| `SnapshotInstall.dfy` | replacing a worktree by a snapshot, with backup and rollback |
| `MarkerBlocks.dfy`, `MarkerInclusion.dfy`, `MarkerDocuments.dfy` | stripping marker-delimited blocks from exported documents, or only their marker lines |
| `ProjectDatabase.dfy` | migration admission gate, backup, opening a project database |
| `DeploymentDatabase.dfy` | engine cache and self-healing singleton rows |
| `StartupRecovery.dfy` | recovery of runs over any number of restarts |
| `BalancedCohort.dfy`, `ProportionalPicks.dfy` | round-robin and evenly spread image selection |
| `MigrationLineage.dfy` | the check on the public migration files |
| `StableSort.dfy`, `Licenses.dfy` | the third-party license file |
| `TrainingOutcome.dfy` | verdict on a training suite, and its poller |
| `LayeredSettings.dfy` | precedence of configuration sources, the settings singleton |
| `Basics.dfy` | shared datatypes |

Promises that hold only under a condition, each with the exact condition or a concrete case:

* The equal-count guard on markers does not imply a marker-free result. With the feature excluded it does exactly
  when the markers alternate (`NoMarkerSurvivesIff`); `GuardAdmitsLeftover` is a document that passes and keeps a
  marker. With the feature kept, and no marker attached to the beginning of another (in particular when every
  marker begins a line, `LineStartsDetached`), it does exactly when a newline directly follows each marker
  (`IncludeMarkerFreeIff`). Without that proviso, deleting one marker can make another, every newline being in
  place (`DeletionMakesMarker`).
* A backup's temporary files are removed exactly unless closing or unlinking one of them is what failed
  (`BackupDatabase`).
* The repair of the embedding row lowers an operator's higher GPU floor exactly on rows with a legacy pin
  (`RepairKeeps`).
* Engines are disposed outside the lock. The live engines of a workspace are at every moment the cached one and
  those that a close has taken out and not disposed yet (`LiveEngines`), so an open leaves two live engines exactly
  if one of that workspace was awaiting disposal (`InitDeploymentDb`); `OpenWhileClosing` is such an open.
* A strict training failure is final exactly when no evaluation is left that could still succeed
  (`StrictFailureStandsIff`). The strict verdict ignores the order of jobs exactly when all evaluations succeeded or
  none did (`StrictIgnoresOrderIff`); the chain-isolation verdict always does.
* A failed `init_settings` leaves the old settings in service but may move the target of persisted writes. From a
  state where the two agree, they still agree exactly if config.yaml was missing or the failed load was for the
  same env file (`InitSettings`); `FailedInitMovesWriteTarget` is a case where they part.
* The destination check refuses a destination inside the source repository, not one around it: an accepted
  destination overlaps the repository exactly if it is a proper ancestor (`AcceptedDestination`), and a successful
  export to one replaces the repository's own top-level entry unless that is named `.git` (`Export`).
* The sections of the license file do not depend on collection order exactly if no two packages of a label share
  their sort key and no two labels differ in case only (`SectionsIgnoreOrderIff`). The file itself then does not
  either (`OutputIgnoresOrder`); different sections may still happen to print alike (`AmbiguousMayPrintAlike`).

## Model

| member | source | states |
|---|---|---|
| SnapshotInstall.Workspace.Install | scripts/export_public_snapshot.py:582-639 | success leaves exactly `.git` and the snapshot; an undone failure leaves the destination as it was; in every recorded state all originals are safe unless the new worktree is complete; no failure at all means installed, one failure is always undone or harmless |
| SnapshotInstall.Workspace.MoveOldWorktree | scripts/export_public_snapshot.py:614-620 | whatever fails, destination and backup share out the originals; when it returns normally everything but `.git` is in the backup |
| SnapshotInstall.Workspace.CopySnapshotContents | scripts/export_public_snapshot.py:570-579 | copies never overwrite an entry and never touch an original; normal return means exactly `.git` and the snapshot |
| SnapshotInstall.Workspace.RollBack | scripts/export_public_snapshot.py:622-629 | only when every original was moved out is anything removed; a completed rollback restores the worktree exactly, an incomplete one loses nothing |
| SnapshotInstall.Workspace.Replace | scripts/export_public_snapshot.py:611-637 | moving, copying and undoing together: one failing step is always undone |
| SnapshotInstall.Workspace.InstallFresh | scripts/export_public_snapshot.py:590-601 | an empty or missing destination is filled, or is empty or missing again after a cleaned-up failure |
| SnapshotInstall.OriginalsRecoverable | scripts/export_public_snapshot.py:631-634 | from any conserved state, laying the backup over the destination gives the original worktree back |
| SnapshotInstall.Workspace.Export | scripts/export_public_snapshot.py:722-785 | a refused destination is unchanged, an accepted one is never refused later and keeps its `.git`; exporting over a directory around the repository puts an end to the repository's entry there, exactly unless it is named `.git` |
| SnapshotInstall.AcceptedDestination | scripts/export_public_snapshot.py:536-567 | a validated destination with content may be replaced and has a `.git` entry; it overlaps the repository if and only if it is a proper ancestor of it |
| SnapshotInstall.AcceptedIff | scripts/export_public_snapshot.py:546-566 | accepted are exactly new destinations, empty directories, and on request directories with `.git`; never the root, the home directory or anything in the repository |
| SnapshotInstall.RefusedBecause | scripts/export_public_snapshot.py:546-566 | which refusal a destination gets |
| SnapshotInstall.AncestorOfRepositoryAccepted | scripts/export_public_snapshot.py:544-566 | a directory around the source repository is accepted if and only if any other directory with its content would be |
| MarkerBlocks.Substitute | scripts/export_public_snapshot.py:280-285 | the leftmost lazy scan computes the block-by-block description |
| MarkerBlocks.StripCommutes | scripts/export_public_snapshot.py:280-285 | the markers left in the stripped text are those of the stripped marker word: the inserted newline never creates one |
| MarkerBlocks.CountIsTally | scripts/export_public_snapshot.py:273-275 | the guard's counts are the numbers of start and end marks in the marker word |
| MarkerBlocks.NoMarkerSurvivesIff | scripts/export_public_snapshot.py:273-285 | with equal counts, no marker survives if and only if the markers alternate start, end |
| MarkerBlocks.GuardAdmitsLeftover | scripts/export_public_snapshot.py:273-285 | some document passes the guard and keeps an end marker |
| MarkerBlocks.StrippedIdempotent | scripts/export_public_snapshot.py:306-311 | stripping twice is stripping once, for every text |
| MarkerBlocks.AutorunPair | scripts/export_public_snapshot.py:116-117 | the autorun markers have `<` only at the front, no newline, and neither is a prefix of the other |
| MarkerBlocks.SourceOnlyPair | scripts/export_public_snapshot.py:118-119 | the same of the source-only markers |
| MarkerDocuments.AlternatesIffCleanDocument | scripts/export_public_snapshot.py:280-285 | markers alternate if and only if the text is outside texts with marker-free blocks between them, in exactly one way |
| MarkerDocuments.StrippedKeepsOutside | scripts/export_public_snapshot.py:280-285 | stripping keeps the outside texts, in order; block bodies play no part |
| MarkerDocuments.StrippedTrims | scripts/export_public_snapshot.py:280-285 | one newline stands for each block, and each outside text loses exactly one newline at a side where it meets a block and has one; a newline between two blocks goes to the first |
| MarkerDocuments.StrippedBlock | scripts/export_public_snapshot.py:280-285 | a block with at most one newline on either side gives way to one newline; a second adjacent newline stays |
| MarkerDocuments.StrippedDropsBlockLines | scripts/export_public_snapshot.py:280-285 | blocks on lines of their own vanish with those lines; only a block with no line before it leaves a blank one |
| MarkerDocuments.StrippedConservesText | scripts/export_public_snapshot.py:280-285 | apart from newlines the result is the text outside the blocks |
| MarkerInclusion.IncludeMarkerFreeIff | scripts/export_public_snapshot.py:286-288 | unless a marker is attached to the beginning of another, keeping the feature leaves no marker if and only if a newline directly follows each |
| MarkerInclusion.IncludedIsOnePass | scripts/export_public_snapshot.py:286-288 | under the same proviso the two replacements in sequence are one pass that takes out every marker with its newline and nothing else |
| MarkerInclusion.LineStartsDetached | scripts/export_public_snapshot.py:286-288 | the proviso holds when every marker begins a line |
| MarkerInclusion.DeletionMakesMarker | scripts/export_public_snapshot.py:286-288 | the proviso is needed: for every pair and cut there is a balanced document, every marker followed by a newline, that keeps a marker |
| MarkerInclusion.IncludedDropsMarkerLines | scripts/export_public_snapshot.py:286-288 | when every marker has a line to itself, keeping the feature deletes exactly those lines |
| MarkerInclusion.IncludeKeepsUnterminatedMarker | scripts/export_public_snapshot.py:286-288 | a balanced document whose last marker ends the file keeps it in include mode |
| MarkerDocuments.SnapshotTree.RewriteDocuments | scripts/export_public_snapshot.py:268-289 | the pass rewrites listed files in order and stops at the first unbalanced one; no other file changes, none comes or goes |
| MarkerDocuments.SnapshotTree.ProcessAutorunDocumentation | scripts/export_public_snapshot.py:263-289 | with the feature excluded, a listed file ends marker-free if and only if its markers alternated; with it kept, if and only if each had its newline, where none was attached to another |
| MarkerDocuments.SnapshotTree.RemoveSourceOnlyDocumentation | scripts/export_public_snapshot.py:292-311 | a listed file ends free of source-only markers if and only if they alternated |
| MarkerDocuments.SnapshotTree.ProcessDocumentation | scripts/export_public_snapshot.py:655-659 | the two passes in sequence: files the first one freed of autorun markers stay free of them |
| MarkerDocuments.StrippedMakesNoMarker | scripts/export_public_snapshot.py:306-311 | stripping blocks of one kind makes no marker of another |
| ProjectDatabase.AdmittedIff | src/backend/vlm_feedback_loop/db/engine.py:338-382 | the gate admits exactly fresh databases and those with one non-empty revision in a canonical version table, both spelled out |
| ProjectDatabase.ProjectDirectory.BackupDatabase | src/backend/vlm_feedback_loop/db/engine.py:266-313 | readers see the old backups or one more, complete and checked, under the name drawn; temporary files remain exactly if closing or unlinking failed; when nothing fails it is published unless that name is taken |
| ProjectDatabase.ProjectDirectory.RefuseUnknown | src/backend/vlm_feedback_loop/db/engine.py:327-335 | a refusal leaves a new checked copy among the backups; when nothing fails it is refused unless the drawn name is taken |
| ProjectDatabase.ProjectDirectory.RunMigrations | src/backend/vlm_feedback_loop/db/engine.py:385-430 | scripts run only on fresh or known databases behind the head, from a known revision only after a checked backup; when nothing fails a fresh one opens and an older one too unless the drawn name is taken |
| ProjectDatabase.ProjectDirectory.OpenProjectDb | src/backend/vlm_feedback_loop/db/engine.py:436-485 | success means head revision with quick check, migration and foreign-key check in order; an up-to-date database is never changed; when nothing fails the outcome is determined by what the database holds and whether the drawn backup name is taken |
| ProjectDatabase.ProjectDirectory.OpenRepeatedly | src/backend/vlm_feedback_loop/db/engine.py:436-485 | over any opens and failures, nothing changes after the first success and no backup is lost |
| DeploymentDatabase.RepairSettles | src/backend/vlm_feedback_loop/db/engine.py:542-590 | the repair ends sound (a current pin has at least the minimum GPU floor), changes exactly the unsound rows, and is idempotent |
| DeploymentDatabase.RepairKeeps | src/backend/vlm_feedback_loop/db/engine.py:542-590 | operator fields survive; a floor is lowered exactly on legacy rows with a higher one |
| DeploymentDatabase.PassRefreshes | src/backend/vlm_feedback_loop/db/engine.py:523-609 | a completed pass leaves, field by field, the seeded values in a new row, the new model, dimension, image and floor in one on an old model, the new image and floor in one on an old image, and everything else as it was |
| DeploymentDatabase.HealingSettles | src/backend/vlm_feedback_loop/db/engine.py:523-609 | a completed pass leaves one sound row of each kind, and a second pass changes nothing |
| DeploymentDatabase.Deployments.InitDeploymentDb | src/backend/vlm_feedback_loop/db/engine.py:488-618 | success means the refreshed rows; a new engine is cached only after a complete pass and otherwise disposed; a cached engine stays; without a fault it succeeds; it leaves two live engines exactly if one awaited disposal |
| DeploymentDatabase.Deployments.CloseDeploymentDbResources | src/backend/vlm_feedback_loop/db/engine.py:621-628 | exactly the cached engines are disposed and the cache is empty |
| DeploymentDatabase.Deployments.OneLiveEngine | src/backend/vlm_feedback_loop/db/engine.py:511-618 | apart from engines being closed, a workspace has at most one live engine and it is the cached one |
| DeploymentDatabase.Deployments.LiveEngines | src/backend/vlm_feedback_loop/db/engine.py:511-628 | at every moment the live engines of a workspace are the cached one and those awaiting disposal |
| DeploymentDatabase.Deployments.Run | src/backend/vlm_feedback_loop/db/engine.py:488-628 | after any sequence of opens, failures, closes and parts of closes the live engines are exactly the cached ones and those awaiting disposal, and rows are singletons |
| DeploymentDatabase.Deployments.OpenWhileClosing | src/backend/vlm_feedback_loop/db/engine.py:621-628 | an open between the halves of a close succeeds unless something fails, and then there are two live engines of one workspace |
| StartupRecovery.EnsuredForGood | src/backend/vlm_feedback_loop/services/run_config.py:250-326 | a snapshot ensured once is kept by every later start, whatever the catalog says |
| StartupRecovery.EnsuredIff | src/backend/vlm_feedback_loop/services/run_config.py:250-326 | when a snapshot can be had: a matching one of the second version, a matching upgradable one of the first, or none and a model to capture |
| StartupRecovery.ReconcileBatchItems | src/backend/vlm_feedback_loop/services/batch_label_service.py:532-662 | succeeds exactly on coherent items and yields one outcome per counted item |
| StartupRecovery.SummarizeBatchOutcomes | src/backend/vlm_feedback_loop/services/batch_label_service.py:665-684 | each outcome is in exactly one counter, so the counters sum to the number of outcomes |
| StartupRecovery.CountersWithinInputs | src/backend/vlm_feedback_loop/main.py:67-94 | reconstructed counters sum to at most the distinct input keys, which are the run's total |
| StartupRecovery.CountersAre | src/backend/vlm_feedback_loop/main.py:193-208 | each reconstructed counter is the number of the run's operations of that kind, ignored and pending ones left out |
| StartupRecovery.ReconstructedIff | src/backend/vlm_feedback_loop/main.py:58-94 | reconstruction fails exactly if one of nine defects shows |
| StartupRecovery.RunRecord.Recover | src/backend/vlm_feedback_loop/main.py:148-220 | the loop body makes of a record what the specification says and reports whether to resume it; a canceled run has the counters its operations call for |
| StartupRecovery.RecoveredIsSettled | src/backend/vlm_feedback_loop/main.py:140-220 | after recovery no evaluation run is pending and a pending batch run is queued with the recovered flag or paused, with a usable snapshot |
| StartupRecovery.SettledIffUnchanged | src/backend/vlm_feedback_loop/main.py:140-220 | the settled runs are exactly those no later start changes |
| StartupRecovery.PausedAndCanceling | src/backend/vlm_feedback_loop/main.py:190-220 | paused stays paused exactly if its snapshot can be had; canceling is never resumed and always ends, as canceled exactly with intent, snapshot and coherent items |
| StartupRecovery.RecoveredSucceeds | src/backend/vlm_feedback_loop/main.py:140-220 | terminal runs are unchanged, statuses move only as promised, a newly canceled run's counters fit its inputs |
| StartupRecovery.RecoveredFields | src/backend/vlm_feedback_loop/main.py:148-220 | reason, completion time, recovered flag, snapshot and counters of a run after a start, field by field |
| StartupRecovery.RecoveredStatus | src/backend/vlm_feedback_loop/main.py:148-220 | its status, and that exactly the batch runs left queued are resumed |
| StartupRecovery.Workspace.RecoverInterruptedRuns | src/backend/vlm_feedback_loop/main.py:97-225 | every run of an eligible project is recovered on its own, other projects are untouched; it goes through exactly if every commit it needs does, and a failed one leaves earlier projects recovered and the rest untouched |
| StartupRecovery.Workspace.StartRepeatedly | src/backend/vlm_feedback_loop/main.py:97-225 | over any number of starts with failures, runs only move as promised, and the rows a completed start leaves are settled and are the rows after every later start |
| StartupRecovery.TargetsListed | src/backend/vlm_feedback_loop/main.py:154-189 | the resume list names exactly the active batch runs, in opened projects that are not archived, that recovery leaves queued |
| StartupRecovery.TargetsDistinct | src/backend/vlm_feedback_loop/main.py:178-189 | no run is on the resume list twice |
| BalancedCohort.GatherImagePaths | scripts/full_pipeline_smoke.py:1121-1162 | bad limits and empty directories are refused; otherwise min(limit, files) files, the round-robin selection |
| BalancedCohort.RoundRobin | scripts/full_pipeline_smoke.py:1146-1162 | the nested loops select a prefix of the round-robin order |
| BalancedCohort.SelectionBalanced | scripts/full_pipeline_smoke.py:1148-1161 | if a class still has files, classes before it have at most one more pick and classes after it no more |
| BalancedCohort.BalancedUnique | scripts/full_pipeline_smoke.py:1148-1161 | the balanced counts are determined by bucket sizes and total |
| BalancedCohort.SelectionTakesPrefixes | scripts/full_pipeline_smoke.py:1151-1156 | each class contributes the first files of its sorted bucket, in order, once each |
| BalancedCohort.SelectionMonotone | scripts/full_pipeline_smoke.py:1148-1161 | a smaller limit selects a prefix of what a larger one selects |
| BalancedCohort.SelectionDistinct | scripts/full_pipeline_smoke.py:1141-1162 | distinct files give a cohort without repeats |
| BalancedCohort.BucketInOrder | scripts/full_pipeline_smoke.py:1141-1146 | a bucket holds exactly the files of its class, in the given order |
| BalancedCohort.EarlierFilesFirst | scripts/full_pipeline_smoke.py:1141-1162 | no file is selected before an earlier one of its class |
| MigrationLineage.FindPublicMigrationIssues | scripts/validate_public_release.py:175-247 | the loops report exactly the specified issues in order |
| MigrationLineage.NumberFollowsName | scripts/validate_public_release.py:180-194 | sorted fixed-width names have sorted numbers |
| MigrationLineage.WellNamedIff | scripts/validate_public_release.py:40 | the accepted names: three digits, an underscore, a stem of lower-case letters, digits and underscores, the suffix |
| MigrationLineage.RevisionInjective | scripts/validate_public_release.py:230-231 | zero-padded revision identifiers are injective |
| MigrationLineage.CleanIff | scripts/validate_public_release.py:196-245 | no issue if and only if the files are numbered 1 to n, each once, and each declares the revision and parent its number calls for |
| MigrationLineage.ReportIs | scripts/validate_public_release.py:180-245 | each kind of issue is reported for a file exactly if the file shows it |
| MigrationLineage.LastAssignmentWins | scripts/validate_public_release.py:216-228 | what a migration declares is its last assignment to the name |
| MigrationLineage.OneRootOneHead | scripts/validate_public_release.py:230-245 | an accepted lineage has one root, one head and distinct revisions |
| MigrationLineage.AncestryIsPath | scripts/validate_public_release.py:230-245 | following parents from any revision passes every earlier one down to the root and stops |
| Licenses.BuildOutput | scripts/generate_third_party_licenses.py:212-265 | the grouping, sorting and printing loops compute the specified text |
| Licenses.EveryPackageOnce | scripts/generate_third_party_licenses.py:213-250 | every package is listed once, under its label; sections are non-empty and in label order, packages by lower-case name and then ecosystem |
| Licenses.TiesKeepOrder | scripts/generate_third_party_licenses.py:213-219 | packages of a section with equal keys come out in the order of their collection |
| Licenses.EveryPackagePrinted | scripts/generate_third_party_licenses.py:243-255 | the file shows each package's lines below the heading of its license |
| Licenses.SectionLayout | scripts/generate_third_party_licenses.py:243-264 | a section is its heading, the entries one after another, a blank line and the representative text, and nothing else |
| Licenses.LinesLayout | scripts/generate_third_party_licenses.py:222-265 | the file is the header and the sections one after another |
| Licenses.OutputIgnoresOrder | scripts/generate_third_party_licenses.py:212-265 | without key or case collisions, permuted inputs give identical output |
| Licenses.SectionsIgnoreOrderIff | scripts/generate_third_party_licenses.py:213-242 | all orders of collection give the same sections if and only if there is no key or case collision |
| Licenses.UnambiguousIff | scripts/generate_third_party_licenses.py:213-242 | that condition in terms of names, ecosystems and labels |
| Licenses.AmbiguousMayPrintAlike | scripts/generate_third_party_licenses.py:243-262 | two orders may give different sections and the same file |
| Licenses.Representative | scripts/generate_third_party_licenses.py:256 | the first listed package that ships a license text |
| StableSort.SortCorrect | scripts/generate_third_party_licenses.py:219 | sorting yields an ascending permutation |
| StableSort.SortStable | scripts/generate_third_party_licenses.py:219 | elements with equal keys keep their order |
| StableSort.StringLessIff | scripts/generate_third_party_licenses.py:219 | strings are compared by their first difference, a beginning coming first |
| StableSort.SortForgetsOrder | scripts/generate_third_party_licenses.py:219 | where equal keys mean equal elements, the sorted list depends on the multiset only |
| TrainingOutcome.ComputeTrainingOutcome | scripts/tao_validation.py:223-261 | the grouped dictionary yields the verdict; when it is success, failure or pending is said of the jobs themselves, in both modes |
| TrainingOutcome.ChainIgnoresOrder | scripts/tao_validation.py:252-261 | the chain-isolation verdict ignores job order |
| TrainingOutcome.VerdictStands | scripts/tao_validation.py:245-261 | a chain verdict and a strict success are final once reached |
| TrainingOutcome.StrictFailureStandsIff | scripts/tao_validation.py:245-250 | a strict failure is final if and only if the last evaluation, if any, is terminal |
| TrainingOutcome.StrictIgnoresOrderIff | scripts/tao_validation.py:245-250 | the strict verdict is the same for every order of the jobs if and only if all evaluations succeeded or none did |
| TrainingOutcome.PollTrainingSuite | scripts/tao_validation.py:264-334 | terminates with the verdict of the first deciding tick before the deadline, or with a passed deadline |
| TrainingOutcome.EndsOnce | scripts/tao_validation.py:280-334 | the tick and the result are determined by the observations |
| TrainingOutcome.DecisionStands | scripts/tao_validation.py:280-334 | a decision agrees with every later look at the suite, strict failures excepted |
| ProportionalPicks.Gap | scripts/profile_b_live_validation.py:196-198 | neighbouring picks are floor(n/r) or ceil(n/r) apart, and ascend strictly |
| ProportionalPicks.PicksAscend | scripts/profile_b_live_validation.py:196-198 | picks are strictly increasing |
| ProportionalPicks.PicksSpan | scripts/profile_b_live_validation.py:196-198 | picks start at 0, stay in range and leave exactly ceil(n/r) positions at the end |
| ProportionalPicks.LongGapsTotal | scripts/profile_b_live_validation.py:196-198 | exactly n mod r of the gaps are longer than floor(n/r) |
| ProportionalPicks.CuratedImages | scripts/profile_b_live_validation.py:183-205 | fails exactly if a class is too small, naming the first such; otherwise the picks of every class, and the final size check never fails |
| ProportionalPicks.CohortAt | scripts/profile_b_live_validation.py:190-199 | the cohort lists class after class, the k-th image of each being the file at floor(k * n / r) |
| LayeredSettings.Merge | src/backend/vlm_feedback_loop/config.py:560-591 | the overlays leave under every key the coerced value of its highest defining source |
| LayeredSettings.LoadsInOrder | src/backend/vlm_feedback_loop/config.py:538-599 | the values loaded are validated from the environment, else the .env file, else config.yaml, else the default; a load succeeds exactly if config.yaml has known keys only and such values exist |
| LayeredSettings.WriteTargetIs | src/backend/vlm_feedback_loop/config.py:562-571 | the write target: command line, then override variable, then default |
| LayeredSettings.OnlyKnownKeysMatter | src/backend/vlm_feedback_loop/config.py:573-588 | unknown environment and env-file keys have no effect; unknown config.yaml keys are refused |
| LayeredSettings.MaskedYamlIsHarmless | src/backend/vlm_feedback_loop/config.py:573-588 | config.yaml matters only for keys no higher source defines, invalid values included |
| LayeredSettings.MaskedDotenvIsHarmless | src/backend/vlm_feedback_loop/config.py:573-586 | a .env value under a key of the environment has no effect |
| LayeredSettings.ConfigModule.LoadSettings | src/backend/vlm_feedback_loop/config.py:538-599 | loads exactly when the file exists, every defined field validates and every required one is defined, with values in order of precedence; records the write target before validating; the env file read is that target if it exists |
| LayeredSettings.ConfigModule.GetSettings | src/backend/vlm_feedback_loop/config.py:620-629 | returns the object in service; loads one only if there is none, and then persisted writes go to the file it was loaded for |
| LayeredSettings.ConfigModule.InitSettings | src/backend/vlm_feedback_loop/config.py:632-643 | puts a new object in service that agrees with the write target, or changes nothing but that target; exactly when a failed init breaks the agreement |
| LayeredSettings.ConfigModule.ResetSettings | src/backend/vlm_feedback_loop/config.py:646-654 | nothing is in service afterwards, so the next get loads |
| LayeredSettings.ConfigModule.GetRepeatedly | src/backend/vlm_feedback_loop/config.py:611-629 | gets with no init or reset between them return the same object |
| LayeredSettings.ConfigModule.FailedInitMovesWriteTarget | src/backend/vlm_feedback_loop/config.py:562-571 | after a failed init the settings in service and the write target come from different files |

## Left out

- Directories above a missing destination, which `mkdir` also creates, are not modelled; cleanup does not remove them.
- Destination entries have opaque contents: what a half-finished copy or removal leaves is arbitrary, its inner steps are not modelled one by one.
- Other processes writing to the same directories or databases at the same time.
- Git calls, archive extraction, removal of excluded paths, the readiness patterns and the dry run of the exporter, which stand between validating the destination and installing.
- Export: the destination is a directory or missing; one that is a file is decided by `ValidateDestination` alone.
- The Unicode decimal digits that a Python `\d` also accepts in migration names, and non-ASCII white space.
- Alembic and SQLite internals: an upgrade is one step that leaves any database when it fails and the head revision when it succeeds; whether the stored definition of the version table is the canonical one, and which revisions the scripts resolve, are given.
- Disposal of an engine is taken to succeed, as is the creation of an engine object; the migration engine's disposal is not modelled.
- The services behind recovery: capturing and upgrading a snapshot may fail and otherwise yield an arbitrary body; the guidance and project lookups of `snapshot_run_config` are one given condition per run; the lineage fields of an operation are one flag.
- StartupRecovery.ReconcileBatchItems: only the mode used at start-up is modelled, not the repair that an active resume makes.
- Starting the executor for resumed runs, and everything the application does between two starts.
- How an image path determines its class, and the sorting of paths, are given to the cohort selection.
- Lower-casing, trimming, line splitting and the rewriting of retired source locations in the license file are given functions; collecting the packages is not modelled.
- Exceptions of the poller other than a crashed tick, and what it prints.
- Pydantic and YAML parsing: validation of a field is a given function of its value, and a config.yaml that is not valid YAML is not modelled.
- Routers, HTTP clients, the user interface and the executors of evaluation, labelling and training jobs.
