# Verified models of sunbeam's stateful logic

Dafny models of the parts of sunbeam where state, ordering and merging are hard to get right, with
proofs of what they keep. Two programs are modelled: clusterd (`sunbeam-microcluster`, Go), which
serves the cluster database, and the sunbeam client (`sunbeam-python`) with one of its tools.

| files | what they model |
|---|---|
| `ConfigTable.dfy` | clusterd's `config` table, one method per database transaction |
| `TerraformLock.dfy`, `LockProtocol.dfy` | LOCK, UNLOCK and state PUT on a Terraform plan, each a sequence of separate transactions; every interleaving of any number of clients |
| `Tfvars.dfy`, `TfvarLaws.dfy`, `TerraformHelper.dfy` | what a Terraform plan's variables become over full and partial runs; the aliased in-place code that computes them |
| `StorageCheck.dfy` | the check that refuses changes of storage settings, and why it protects them |
| `RestoreSaga.dfy`, `RestoreStep.dfy` | restoring databases: plans, partial failures, compensation |
| `FeatureGates.dfy`, `GateRuns.dfy` | replication of feature gates into the snap configuration; whole runs of any number of nodes with failing calls, restarts and other writers |
| `DisableFeatures.dfy` | the retry queue that disables features in dependency order |
| `Roles.dfy`, `RoleSearch.dfy`, `NodeQuery.dfy`, `Nodes.dfy` | node roles stored as JSON text, what searching that text finds, the SQL statements that select nodes, the node table |
| `MergeDict.dfy`, `MergeHeap.dfy` | merging nested dicts, on values and in place |
| `Revisions.dfy` | adding charm revisions to a manifest of any depth |
| `StatusCounter.dfy` | the thread that waits until all applications are online |
| `Wrappers.dfy` | optional values |

Check everything with `dafny verify dfyconfig.toml`, adding `--resource-limit 2000000` for a bound on the effort.

Source code that updates objects in place is modelled by classes, methods and loops; each of them is
proved against a function of its inputs or old state, and the laws are lemmas about those functions.
Iteration over a dict or a Go map takes the keys in an arbitrary order. Outcomes of Juju, snapctl and
database calls are arbitrary choices, within what the call can do.

## What was found

These are properties that one might expect and that the code does not have in general. Each has its
exact condition, or a run from every state in which it can fail.

- From every reachable state in which a state PUT is past its check, an UNLOCK of the stored lock makes
  the PUT commit with no lock stored (`EarlyUnlockLetsPutWriteUnlocked`); from every one in which two
  UNLOCKs of a plan are about to delete, the second can delete any lock taken in between
  (`DoubleUnlockDeletesOthersLock`). With any clients, a stored lock stays as it is exactly as long as no
  UNLOCK deletes it (`RowStaysIffNoRelease`). A LOCK that finds a lock stored is granted exactly when
  the two have the same ID, Operation and Who (`RefusedIsGrantedIffSameHolder`), so that from every
  reachable state with the lock free there is a run in which two LOCKs that differ in the rest are both
  granted (`SecondLockIsGrantedIffSameHolder`). The clients that `LockProtocol.Proper` describes do
  none of this; `UnlockedWriteIsReachable`, `LossOfOthersLockIsReachable` and `TwoHoldersAreReachable` are
  instances from the empty table. A lock just acquired is held exactly when its answer arrives and its
  UNLOCK was not sent before (`AcquiredIsHeldIff`).
- A failed snapctl call, to set or to unset, is logged and then forgotten: while the cluster's table
  does not change it is not tried again (`FailureIsForgotten`). What something else did to one option is
  forgotten at the next sync exactly when the table differs from the one last synced and the sync makes a
  successful call for that option; without failures, when the option belongs to a gate of the table or
  of the one last synced (`SyncForgetsChangeIff`, `CalledWithoutFailures`). A table that went there
  and back in between hides the change (`LocalChangeSurvives`). Gates whose keys differ only by the
  `feature.` prefix overwrite each other (`SyncShowsIffCompatible`). Over whole runs, a gate is wrong
  exactly when the last action that decided about it was a failed call or another writer
  (`OffIffSpoilt`), and an option stays behind exactly when a restart, a failed call to unset it or
  another writer left it and nothing freed it since (`StaleIffStranded`).
- Every router is stopped while MySQL is restored exactly when the MySQL application is not
  its own router (`RestoreActionRunsAlone`). The resolution of applications accepts that relation
  when Juju reports it (`OwnRouterIff`, `OwnRouterIsAccepted`); that Juju does not is an assumption.
- The retry queue for disabling features never ends when features require each other in a circle
  (`DrainsIffAcyclic`).
- Searching for a role finds the runs of pieces between the quotes of the stored text
  (`SearchFindsRuns`). For requested names without quotes, the comma apart, that is exact exactly for
  role lists whose names JSON shows as themselves (`SearchIsExactIffPlain`), so it goes wrong for some
  name whenever a role has a quote, a backslash, `<`, `>`, `&`, a control character or a line separator
  (`QuotedRoleIsMisread` is an instance). For all requested names it is exact only for at most one role
  (`SearchIsAlwaysExactIff`): asking for two neighbouring roles with `","` between them finds a node that
  has both (`NeighboursAreFound`), and asking for `,` any node with two.
- `merge_dict` fails exactly on a truthy leaf on the left that meets a non-empty dict on the right
  (`MergeFailsIffMisfit`), and that is exactly when the grouping of three merges can matter
  (`AssociativeIffFits`; `HiddenClash` is an instance).
- The wait for applications never ends for a list that names one of them twice (`EnoughActiveIffAllOnline`).
- The fields of a charm config come from the manifest, else the override, else the kept record exactly
  when no value that is not a dict, and no empty override, drops some of them (`ConfigIsLayeredIff`).
- An override that uses one dict for a charm config and for another variable gives the manifest's
  fields to both; that is harmless exactly when the other one has them already (`SharingIsHarmlessIff`).

## Model

| member | source | states |
|---|---|---|
| ConfigTable.Table.GetConfigItem | sunbeam-microcluster/database/config.mapper.go:176-194 | the one row of the key, or 404; two matching rows, an error in the source, cannot occur while keys are unique |
| ConfigTable.Table.CreateConfigItem | sunbeam-microcluster/database/config.mapper.go:234-270 | the existence check and the insert are one step: 409 exactly for a present key, otherwise the row is added under a new id and keys stay unique |
| ConfigTable.Table.UpdateConfigItem | sunbeam-microcluster/database/config.mapper.go:300-327 | only the value of the key changes; 404 for a missing key |
| ConfigTable.Table.DeleteConfigItem | sunbeam-microcluster/database/config.mapper.go:273-296 | only the row of the key goes; 404 for a missing key |
| ConfigTable.Table.GetConfig | sunbeam-microcluster/sunbeam/config.go:16-33 | one transaction that reads the stored value |
| ConfigTable.Table.CreateConfig | sunbeam-microcluster/sunbeam/config.go:56-65 | one transaction; a faulted one changes nothing |
| ConfigTable.Table.UpdateConfig | sunbeam-microcluster/sunbeam/config.go:68-82 | an upsert in one transaction: the key has the value afterwards, no other key changes |
| ConfigTable.Table.DeleteConfig | sunbeam-microcluster/sunbeam/config.go:85-89 | one transaction that takes away the key alone |
| ConfigTable.MatchingIsUnique | sunbeam-microcluster/database/config.mapper.go:176-194 | a lookup by key never meets a second row |
| TerraformLock.KeysAreDistinct | sunbeam-microcluster/sunbeam/terraform.go:15-16 | lock and state rows of all plans, whatever their names, are pairwise different rows |
| TerraformLock.LockAlone | sunbeam-microcluster/sunbeam/terraform.go:113-164 | LOCK alone stores its lock in a free row, and otherwise changes nothing and names the stored one, with 423 exactly for the same ID, Operation and Who |
| TerraformLock.UnlockAlone | sunbeam-microcluster/sunbeam/terraform.go:167-201 | UNLOCK alone deletes exactly its own lock, refuses another's with 409, and succeeds on none |
| TerraformLock.StatePutAlone | sunbeam-microcluster/sunbeam/terraform.go:42-67 | PUT alone stores its state, over an old one or not, exactly when the stored lock has its ID; 404 without a lock, 409 for another's |
| TerraformLock.UpdateTerraformLock | sunbeam-microcluster/sunbeam/terraform.go:100-164 | with other requests between its transactions LOCK follows the step function; answered without error its lock is stored, refused it names the stored lock, and an internal error means a fault or an unreadable lock |
| TerraformLock.DeleteTerraformLock | sunbeam-microcluster/sunbeam/terraform.go:167-201 | the same for UNLOCK: answered without error no lock is stored, refused another's is |
| TerraformLock.UpdateTerraformState | sunbeam-microcluster/sunbeam/terraform.go:42-67 | the same for state PUT: answered without error its state is stored and the lock it found had its ID |
| LockProtocol.RowChanges | sunbeam-microcluster/sunbeam/terraform.go:42-201 | a lock row appears exactly in an acquisition, with the lock asked for, and disappears exactly in a committed UNLOCK deletion, of its own plan; a state row changes only in a committed PUT of its plan, which leaves the state that was put |
| LockProtocol.OneAcquisitionPerRelease | sunbeam-microcluster/sunbeam/terraform.go:113-201 | with any clients, in every interleaving, two successful LOCKs on a plan have a committed deletion between them |
| LockProtocol.RowStaysIffNoRelease | sunbeam-microcluster/sunbeam/terraform.go:113-201 | with any clients, in every interleaving, a stored lock row is unchanged up to a moment exactly when no committed UNLOCK deletion on its plan comes before |
| LockProtocol.RefusalNamesStoredLock | sunbeam-microcluster/sunbeam/terraform.go:126-163 | a LOCK answered 423 or 409 names a record that was stored during that request, and it is 423 exactly when ID, Operation and Who agree |
| LockProtocol.WriteWasAllowed | sunbeam-microcluster/sunbeam/terraform.go:46-61 | a PUT about to write has found its own lock ID stored during the request, with any clients |
| LockProtocol.InvHolds | sunbeam-microcluster/sunbeam/terraform.go:42-201 | with well-behaved clients, in every reachable state: every granted lock is stored until its UNLOCK, and what a PUT or UNLOCK has read is still stored when it acts |
| LockProtocol.MutualExclusion | sunbeam-python/sunbeam/clusterd/cluster.py:223-242 | at any moment at most one lock is held on a plan, where 423 counts as success for the client, and it is the stored one |
| LockProtocol.UnlockDeletesWhatItRead | sunbeam-microcluster/sunbeam/terraform.go:167-201 | an UNLOCK that reaches its deletion deletes the record that it read, and no other row |
| LockProtocol.StateWrittenUnderOwnLock | sunbeam-microcluster/sunbeam/terraform.go:42-67 | every committed change of a plan's state is made while the writer's own lock record is stored |
| LockProtocol.EarlyUnlockLetsPutWriteUnlocked | sunbeam-microcluster/sunbeam/terraform.go:46-61 | a PUT must be answered before the UNLOCK: from every reachable state with a PUT past its check and any lock stored, a run in which the PUT commits with no lock stored |
| LockProtocol.DoubleUnlockDeletesOthersLock | sunbeam-microcluster/sunbeam/terraform.go:177-196 | UNLOCKs must not overlap: from every reachable state with two of them past their checks, a run in which the second deletes any lock taken in between |
| LockProtocol.RefusedIsGrantedIffSameHolder | sunbeam-python/sunbeam/clusterd/cluster.py:223-238 | in every run, a LOCK that was answered with a stored record is granted, 423 counting as success, exactly when it agrees with that record in ID, Operation and Who |
| LockProtocol.SecondLockIsGrantedIffSameHolder | sunbeam-microcluster/sunbeam/terraform.go:147-163 | IDs must be fresh: from every reachable state with the lock free, a run in which a second LOCK finds the first one's lock, and both are granted exactly when they agree in ID, Operation and Who |
| LockProtocol.AcquiredIsHeldIff | sunbeam-microcluster/sunbeam/terraform.go:126-143 | a lock just acquired is held exactly when its answer arrives and its UNLOCK was not sent before |
| LockProtocol.StoredLockWasGranted | sunbeam-microcluster/sunbeam/terraform.go:113-201 | with any clients, unless an acquisition's answer was lost, every stored lock was granted to a LOCK request |
| Tfvars.FindCharmDescribes | sunbeam-python/sunbeam/core/manifest.py:426-439 | a charm is described by the core section, or else by the first feature that has it |
| Tfvars.AttrVarsSet | sunbeam-python/sunbeam/core/terraform.py:798-832 | of one charm, a variable has the value of the last truthy attribute that maps to it, and is absent without one |
| Tfvars.CharmsVarsSet | sunbeam-python/sunbeam/core/terraform.py:798-832 | over the chosen charms, all when none are named, it is the last such attribute of the last such charm |
| Tfvars.ManifestVarsAreSaid | sunbeam-python/sunbeam/core/terraform.py:798-832 | the manifest's variables are exactly those that some truthy attribute of a chosen charm sets, with the value of the last one |
| Tfvars.ManifestVarsAreNamed | sunbeam-python/sunbeam/core/terraform.py:834-849 | every variable the manifest sets is among the tfvar names of the chosen charms |
| Tfvars.ConfigKeysAreMapped | sunbeam-python/sunbeam/core/terraform.py:786-796 | charm-config keys are the non-empty tfvars of attributes named config |
| Tfvars.RunStartsFrom | sunbeam-python/sunbeam/core/terraform.py:676-697 | a run starts from the stored variables that were computed, by the record or for one that does not tell by the preserve list, or that no chosen charm names |
| Tfvars.RunComputes | sunbeam-python/sunbeam/core/terraform.py:547-578 | a full run adds exactly the overridden keys to the computed ones, a partial run none |
| Tfvars.SavedRecord | sunbeam-python/sunbeam/core/terraform.py:569-575 | what is saved for the next run |
| TfvarLaws.FullRunAt | sunbeam-python/sunbeam/core/terraform.py:522-578 | a full run decides each key by itself, from its kept, manifest and override values |
| TfvarLaws.PlainKeyPrecedence | sunbeam-python/sunbeam/core/terraform.py:522-578 | a key that is no charm config comes from the override, else the manifest, else the kept record |
| TfvarLaws.PlainKeyComesFrom | sunbeam-python/sunbeam/core/terraform.py:522-578 | the same traced back to its sources: the override, else the last attribute of the manifest that sets it, else the record if it keeps it |
| TfvarLaws.PartialKeyComesFrom | sunbeam-python/sunbeam/core/terraform.py:382-415 | the same for a partial run |
| TfvarLaws.ConfigComesFrom | sunbeam-python/sunbeam/core/terraform.py:522-578 | for a charm config: present exactly when one of the three sources has it, and layered by field exactly when nothing gets lost |
| TfvarLaws.PartialConfigComesFrom | sunbeam-python/sunbeam/core/terraform.py:382-415 | the same for a partial run |
| TfvarLaws.OverrideTakesIn | sunbeam-python/sunbeam/core/terraform.py:725-745 | what becomes of the caller's override: charm-config dicts take in the fields that the manifest says, with its values, and nothing else changes |
| TfvarLaws.ConfigFieldPrecedence | sunbeam-python/sunbeam/core/terraform.py:699-745 | among dicts, each field of a charm config comes from the manifest, else the override, else the kept record, except under an empty override with no manifest value |
| TfvarLaws.ConfigIsLayeredIff | sunbeam-python/sunbeam/core/terraform.py:699-745 | for values of any kind, that precedence holds for all fields exactly when nothing that replaces a dict drops a field |
| TfvarLaws.EmptyOverrideClears | sunbeam-python/sunbeam/core/terraform.py:699-723 | an empty override clears a charm config exactly when the manifest has no dict for it |
| TfvarLaws.NonDictOverrideReplaces | sunbeam-python/sunbeam/core/terraform.py:699-745 | an override that is no dict becomes the value as it is |
| TfvarLaws.RefreshedKeysFollowManifest | sunbeam-python/sunbeam/core/terraform.py:676-697 | after a full run, a key that some attribute maps to and that is not computed is present exactly when some truthy attribute of the manifest sets it, with the value of the last one |
| TfvarLaws.RepeatedRunIsFixedPoint | sunbeam-python/sunbeam/core/terraform.py:522-578 | repeating a persisted run changes nothing, with the original override or with the one the run has already mutated |
| TfvarLaws.PartialRunLeavesOthers | sunbeam-python/sunbeam/core/terraform.py:747-784 | a partial run changes no stored key outside the chosen charms |
| TfvarLaws.PartialRunOverAllIsFullRun | sunbeam-python/sunbeam/core/terraform.py:382-415 | a partial run that covers all charms is a full run without overrides |
| TfvarLaws.PartialRunsCompose | sunbeam-python/sunbeam/core/terraform.py:382-415 | two partial runs for charms with disjoint tfvar names are one partial run for both lists |
| TfvarLaws.PartialRunsCommute | sunbeam-python/sunbeam/core/terraform.py:382-415 | ... and their order does not matter |
| TfvarLaws.RunsOnlyAdd | sunbeam-python/sunbeam/core/terraform.py:547-578 | over every sequence of runs the computed keys only grow, starting from the preserve list for a record that has none |
| TfvarLaws.OverriddenKeysStay | sunbeam-python/sunbeam/core/terraform.py:547-578 | a key that was ever overridden in a persisted run stays stored and computed through all later runs |
| TerraformHelper.Plan.GetCharmConfigKeys | sunbeam-python/sunbeam/core/terraform.py:786-796 | the tfvars mapped from "config" attributes |
| TerraformHelper.Plan.GetTfvars | sunbeam-python/sunbeam/core/terraform.py:798-832 | the manifest's variables, in dicts that are shared with nothing |
| TerraformHelper.Plan.LoadAndFilter | sunbeam-python/sunbeam/core/terraform.py:663-697 | the computed keys, and the stored variables that are computed or not about to be refreshed |
| TerraformHelper.ApplyTfvars | sunbeam-python/sunbeam/core/terraform.py:699-723 | the in-place update gives the key-by-key merge although later sources are aliased into the target |
| TerraformHelper.MergeOne | sunbeam-python/sunbeam/core/terraform.py:725-745 | what merging one charm config in place does to every variable of the override, those that share its dict included |
| TerraformHelper.SharingIsHarmlessIff | sunbeam-python/sunbeam/core/terraform.py:725-745 | that is what was meant exactly when no variable that shares the dict takes in a new field |
| TerraformHelper.AloneMergesInOrder | sunbeam-python/sunbeam/core/terraform.py:725-745 | where charm configs share their dicts with no other variable, the order of merging makes no difference |
| TerraformHelper.MergeManifestIntoOverride | sunbeam-python/sunbeam/core/terraform.py:725-745 | the caller's override takes in the manifest's charm-config fields in place, key by key in some order, shared dicts included, and nothing else |
| TerraformHelper.Plan.UpdateTfvars | sunbeam-python/sunbeam/core/terraform.py:522-578 | for every override, whatever dicts its variables share: the variables written and the record saved are those of a run with the override as it ends up, which is what taking in the manifest key by key makes of it; without shared charm configs that is the full-run function |
| TerraformHelper.Plan.UpdatePartialTfvars | sunbeam-python/sunbeam/core/terraform.py:382-415 | the same for a partial run |
| StorageCheck.StoredVarsIsFirstWins | sunbeam-python/sunbeam/core/manifest.py:501-523 | the merged stored configs give each sub-key the value of the first record that decides it |
| StorageCheck.StoredAre | sunbeam-python/sunbeam/core/manifest.py:501-523 | which record gives each stored variable and sub-key: the first that has it, of all the keys in order |
| StorageCheck.LoadStoredTfvars | sunbeam-python/sunbeam/core/manifest.py:501-523 | the loops compute that merge over the records that exist |
| StorageCheck.CheckStorageModifications | sunbeam-python/sunbeam/core/manifest.py:526-586 | a tfvar is reported exactly when a storage attribute of a charm maps to it, and the manifest and the stored dict have different values under a sub-key they share |
| StorageCheck.EmptyReportProtectsStorage | sunbeam-python/sunbeam/core/manifest.py:526-586 | without a report, the next full run changes no storage sub-key that the canonical record has before and after it |
| RestoreSaga.TargetIsNoApi | sunbeam-python/sunbeam/steps/backup_restore.py:650-674 | the application being restored is never among the control-plane applications to pause |
| RestoreSaga.RestoreAppsAre | sunbeam-python/sunbeam/steps/backup_restore.py:614-674 | which applications a restore stops: as routers those that MySQL reaches, as control plane those of the model that the routers reach, neither MySQL nor a router, or else its namesake; an error exactly without any |
| RestoreSaga.RestoreRunsOnce | sunbeam-python/sunbeam/steps/backup_restore.py:763-818 | the plan runs the restore action of its target exactly once |
| RestoreSaga.RevertRecovers | sunbeam-python/sunbeam/steps/backup_restore.py:820-856 | a compensation whose steps complete restores every scale and pauses nothing new, from whatever a restore left behind |
| RestoreSaga.RestoreDrifts | sunbeam-python/sunbeam/steps/backup_restore.py:763-818 | wherever the plan stops, with whatever part of the last step done, only the target, its routers and its control plane were touched |
| RestoreSaga.CompletedRestoreRecovers | sunbeam-python/sunbeam/steps/backup_restore.py:763-818 | a plan that completes is back at the scales and pauses it started from |
| RestoreSaga.OwnRouterIff | sunbeam-python/sunbeam/steps/backup_restore.py:614-674 | MySQL is resolved as its own router exactly when Juju reports that relation |
| RestoreSaga.OwnRouterIsAccepted | sunbeam-python/sunbeam/steps/backup_restore.py:614-674 | for every name of a control plane, such a topology |
| RestoreSaga.RestoreActionRunsAlone | sunbeam-python/sunbeam/steps/backup_restore.py:763-818 | when the restore action runs, the control plane is paused and MySQL is at scale 1; the routers are all at scale 0 exactly when MySQL is not its own router |
| RestoreSaga.ResumeComesLast | sunbeam-python/sunbeam/steps/backup_restore.py:763-818 | no control-plane application is resumed before MySQL and all routers are back at their captured scales |
| RestoreStep.Juju.RunActionStep | sunbeam-python/sunbeam/steps/backup_restore.py:298-400 | pausing or resuming unit by unit: all units when it completes, any part of them when it fails |
| RestoreStep.Juju.RunScaleStep | sunbeam-python/sunbeam/steps/backup_restore.py:403-442 | the scale asked for when it completes, anywhere on the way when it fails |
| RestoreStep.Juju.RunRestoreStep | sunbeam-python/sunbeam/steps/backup_restore.py:445-504 | a restore that completes had a leader to run on, and changes no scale and no pause |
| RestoreStep.RunPlan | sunbeam-python/sunbeam/steps/backup_restore.py:1267-1272 | the steps in order up to the first failure |
| RestoreStep.RunRevertPlan | sunbeam-python/sunbeam/steps/backup_restore.py:1310-1327 | every step is tried, and exactly the failed ones are reported |
| RestoreStep.FailuresAre | sunbeam-python/sunbeam/steps/backup_restore.py:1310-1327 | the failed steps are listed in order, each once |
| RestoreStep.Precheck | sunbeam-python/sunbeam/steps/backup_restore.py:565-602 | passes exactly when every related control-plane application can be paused and resumed |
| RestoreStep.Prepare | sunbeam-python/sunbeam/steps/backup_restore.py:1289-1308 | plans exist for all targets or for none, and use the scales captured before anything changed |
| RestoreStep.RestoreOne | sunbeam-python/sunbeam/steps/backup_restore.py:1329-1363 | the plan runs up to its first failure; restored exactly when it completed; otherwise the whole compensation runs from there and its failures are reported; unless one failed, the cluster is back at its scales with no control-plane unit paused |
| RestoreStep.RestoredMeansRestored | sunbeam-python/sunbeam/steps/backup_restore.py:1329-1363 | a target is reported restored only when its restore action completed |
| RestoreStep.RunRestores | sunbeam-python/sunbeam/steps/backup_restore.py:1365-1418 | refused exactly for a target that fails its checks, and then nothing was changed; otherwise all plans come from the state at the start, targets are attempted one after the other up to the first that is not restored, and if every compensation completed all scales are the original ones and no touched control plane is paused |
| FeatureGates.FeatureGateSyncer.SetSnapConfig | sunbeam-microcluster/sunbeam/feature_gate_sync.go:96-114 | writes the option of the gate and no other, or nothing when it fails |
| FeatureGates.FeatureGateSyncer.Changed | sunbeam-microcluster/sunbeam/feature_gate_sync.go:162-188 | a change is detected exactly when the known gates and the cluster's gates are different maps |
| FeatureGates.ReadTable | sunbeam-microcluster/sunbeam/feature_gate_sync.go:160-164 | the map has the gates of the list with their values, and no others |
| FeatureGates.FeatureGateSyncer.SyncOnceUnlocked | sunbeam-microcluster/sunbeam/feature_gate_sync.go:134-212 | skipped on MAAS or within the debounce; otherwise the known gates are those of the list, and what the options become for every order of the calls and whichever fail; without failures each gate's option says true or false as the list does, and removed gates have none |
| FeatureGates.FeatureGateSyncer.ForceSync | sunbeam-microcluster/sunbeam/feature_gate_sync.go:224-232 | the same, never skipped by the debounce |
| FeatureGates.SyncShowsIffCompatible | sunbeam-microcluster/sunbeam/feature_gate_sync.go:189-208 | with successful calls the gates show exactly when gates with one option agree and no removed gate has the option of a present one |
| FeatureGates.FailedSyncShowsIff | sunbeam-microcluster/sunbeam/feature_gate_sync.go:191-208 | with failed calls the gates show exactly when the failed ones were right before |
| FeatureGates.PrefixedKeysAreDistinct | sunbeam-microcluster/sunbeam/feature_gate_sync.go:91-103 | keys that carry the prefix never share an option |
| GateRuns.GateAfter | sunbeam-microcluster/sunbeam/feature_gate_sync.go:189-208 | what one sync leaves in the option of each gate of the table, or known before, whichever calls fail |
| GateRuns.SyncOn | sunbeam-microcluster/sunbeam/feature_gate_sync.go:134-212 | what the syncer object does when it is not skipped is the sync of a node in the runs below |
| GateRuns.SyncForgetsChangeIff | sunbeam-microcluster/sunbeam/feature_gate_sync.go:162-208 | for every option, and every change by another writer: the sync leaves the option as it would have without that change exactly when there was none there, or the table moved and a successful call is made for the option |
| GateRuns.CalledWithoutFailures | sunbeam-microcluster/sunbeam/feature_gate_sync.go:189-208 | without failures that is when the option belongs to a gate of the table or of the one last synced |
| GateRuns.StaleAfterSync | sunbeam-microcluster/sunbeam/feature_gate_sync.go:200-208 | which options a sync leaves behind, whichever calls fail |
| GateRuns.OffIffSpoilt | sunbeam-microcluster/sunbeam/feature_gate_sync.go:134-212 | in every run with failing calls, restarts and other writers, a known gate does not have its value exactly when the last action that decided about it was a failed call or another writer |
| GateRuns.StaleIffStranded | sunbeam-microcluster/sunbeam/feature_gate_sync.go:134-212 | in every such run, a managed option is overlooked exactly when a restart found it set, a call to unset it failed, or another writer set it, and since then no gate had it at a sync and no other writer unset it |
| GateRuns.NodesConverge | sunbeam-microcluster/sunbeam/feature_gate_sync.go:134-212 | on any number of nodes in every such run, after one sync since the table stopped changing and since the last restart: which gates are wrong and which options are left behind; the node mirrors the table exactly when no gate was spoilt last and no option was stranded |
| GateRuns.UndisturbedNodesMirror | sunbeam-microcluster/sunbeam/feature_gate_sync.go:134-212 | a node whose calls succeed, that does not restart and that nothing else writes to ends with exactly the table's options |
| GateRuns.FailureIsForgotten | sunbeam-microcluster/sunbeam/feature_gate_sync.go:191-208 | later syncs of the same table leave a gate wrong exactly when the call to set it failed and it was wrong, and an option behind exactly when it was before or the call to unset it failed |
| GateRuns.SyncRepairsIffTableMoved | sunbeam-microcluster/sunbeam/feature_gate_sync.go:162-188 | after a sync without failures the table's own gates show exactly when the table differed from the one last synced or they showed before |
| GateRuns.LocalChangeSurvives | sunbeam-microcluster/sunbeam/feature_gate_sync.go:162-188 | a run in which the table changes and changes back between two syncs, and another writer's change stays |
| DisableFeatures.FreeFeatureExists | sunbeam-python/sunbeam/steps/features.py:60-84 | among features without a circle of requirements one can always be disabled |
| DisableFeatures.DisableEnabledFeatures.IsSkip | sunbeam-python/sunbeam/steps/features.py:47-58 | the queue holds every enabled feature once; skipped exactly when there is none or the cluster service is unavailable |
| DisableFeatures.DisableEnabledFeatures.DisableFeature | sunbeam-python/sunbeam/features/interface/v1/base.py:726-759 | without other trouble, refused for requirers exactly while an enabled feature requires it by name or by group, and disabled otherwise |
| DisableFeatures.DisableEnabledFeatures.Run | sunbeam-python/sunbeam/steps/features.py:60-84 | ends on an acyclic graph; each call is for the head of the queue, a feature with requirers goes back to its end, and the step fails exactly at the first call with other trouble, naming the feature; every feature is disabled once and only after all that require it; completing empties the set of enabled features |
| DisableFeatures.DrainsIffAcyclic | sunbeam-python/sunbeam/steps/features.py:60-84 | the queue drains exactly when no features require each other in a circle |
| Roles.RoleToStr | sunbeam-microcluster/sunbeam/nodes.go:174-181 | sorts the caller's slice in place and gives its JSON text; null for the nil slice |
| Roles.RoleFromStr | sunbeam-microcluster/sunbeam/nodes.go:184-192 | the sorted list that a text holds, with white space, escapes, surrogates and null items as the JSON library reads them, or an error |
| Roles.EscapeReads | sunbeam-microcluster/sunbeam/nodes.go:184-192 | the short escapes of JSON strings are read as the characters they stand for |
| Roles.SortedIsSorted | sunbeam-microcluster/sunbeam/nodes.go:175-175 | sorting gives a sorted permutation |
| Roles.BelowIsLexicographic | sunbeam-microcluster/sunbeam/nodes.go:175-175 | the order is by the first difference, a prefix first |
| Roles.DecodeEncode | sunbeam-microcluster/sunbeam/nodes.go:174-192 | every list of strings, with any characters, is read back as it was written |
| Roles.StoredRolesAreSortedPermutation | sunbeam-microcluster/sunbeam/nodes.go:174-192 | what is read back for a role list is its sorted permutation |
| RoleSearch.SearchFindsRuns | sunbeam-microcluster/database/node.go:68-76 | for every role list and every requested name, with any characters: the quoted name occurs in the text exactly when it is a run of consecutive pieces, the names as escaped and the commas, with the quotes between them |
| RoleSearch.SearchFindsPieces | sunbeam-microcluster/database/node.go:68-76 | for a requested name without quotes: exactly when it is one of the pieces |
| RoleSearch.SearchIsExactIffPlain | sunbeam-microcluster/database/node.go:68-76 | for every role list: every requested name without quotes, the comma apart, is found exactly when it is a role, if and only if JSON shows all the roles as themselves |
| RoleSearch.SearchIsAlwaysExactIff | sunbeam-microcluster/database/node.go:68-76 | for every role list: every requested name at all is found exactly when it is a role, if and only if there is at most one role and JSON shows it as itself |
| RoleSearch.NeighboursAreFound | sunbeam-microcluster/database/node.go:68-76 | two neighbouring roles joined by quote, comma and quote are found although that is no role |
| RoleSearch.LoneRoleIsFoundIffPlain | sunbeam-microcluster/database/node.go:68-76 | a single role is found under its own name exactly when none of its characters is escaped |
| NodeQuery.PartsOfFiltered | sunbeam-microcluster/database/node.mapper.go:162-170 | cutting a statement at ORDER BY and at WHERE gives its condition |
| NodeQuery.AlternativesParse | sunbeam-microcluster/database/node.mapper.go:150-255 | the conditions joined with OR parse as their alternatives, one placeholder each |
| NodeQuery.GetNodesStatement | sunbeam-microcluster/database/node.mapper.go:135-270 | an error exactly when some filter is not on exactly one column; otherwise the built statement with its positional arguments is accepted and selects exactly the rows that match at least one filter, all rows for no filters |
| NodeQuery.GetNodesFromRolesStatement | sunbeam-microcluster/database/node.go:55-88 | the statement selects exactly the rows whose text shows every requested role in quotes |
| Nodes.SearchFindsRunsOf | sunbeam-microcluster/database/node.go:68-76 | on texts that clusterd wrote, the nil list included, what searching for any name finds in the node's role list |
| Nodes.SearchFindsRoles | sunbeam-microcluster/database/node.go:68-76 | for plain stored names, and a requested name without quotes other than the comma: whether the node has the role |
| Nodes.NodeTable.AddNode | sunbeam-microcluster/sunbeam/nodes.go:84-104 | 409 exactly for a known name; the stored text reads back as the sorted roles; the default architecture |
| Nodes.NodeTable.UpdateNode | sunbeam-microcluster/sunbeam/nodes.go:107-153 | 404 exactly for an unknown name; fields that are not given keep their value, and other nodes are untouched |
| Nodes.NodeTable.ListNodes | sunbeam-microcluster/sunbeam/nodes.go:17-51 | never fails on texts that clusterd wrote; lists by name, with every field of its row and its roles sorted, exactly the nodes in whose role list every requested name is found; when the stored names are plain and the requested ones have no quote and are not the comma, those whose roles include all the requested ones |
| MergeDict.MergeFailsIffMisfit | sunbeam-python/sunbeam/utils.py:294-304 | the merge raises exactly when a truthy leaf on the left meets a non-empty dict on the right, at any depth |
| MergeDict.MergedKeys | sunbeam-python/sunbeam/utils.py:294-304 | each key by itself: what is falsy or absent on the left gives way, what is falsy on the right never replaces anything truthy, a truthy leaf replaces, and dicts merge |
| MergeDict.EmptyIsUnit | sunbeam-python/sunbeam/utils.py:294-304 | the empty dict is a unit on both sides |
| MergeDict.MergeIsIdempotent | sunbeam-python/sunbeam/utils.py:294-304 | merging a dict into its equal changes nothing, for every dict |
| MergeDict.MergeIsAssociative | sunbeam-python/sunbeam/utils.py:294-304 | both groupings of three dicts give the same result, or both fail, whenever the first two merge |
| MergeDict.AssociativeIffFits | sunbeam-python/sunbeam/utils.py:294-304 | two dicts fit together, the condition of `MergeFailsIffMisfit`, if and only if for every third dict both groupings give the same result or both fail |
| MergeDict.SurvivingLeaves | sunbeam-python/sunbeam/utils.py:294-304 | the truthy leaves of the result are exactly those on the right, and those on the left whose path meets no truthy leaf on the right |
| MergeHeap.DictObject.Update | sunbeam-python/sunbeam/utils.py:294-304 | on dict objects without common parts the call fails exactly as above, never modifies the second dict, and leaves in the first the merge, or when it fails a part of it: each key holds what it held, what the merge gives it, or again a part of that |
| Revisions.Walk | tools/add_charm_revisions.py:60-81 | the recursive walk appends exactly the collected pairs, in order |
| Revisions.CollectCharms | tools/add_charm_revisions.py:60-81 | the collection is the walk from the root |
| Revisions.CollectedIff | tools/add_charm_revisions.py:60-81 | a pair is collected exactly when, at some path, a charm of that name in a charms dict has that channel and no revision |
| Revisions.UnknownAre | tools/add_charm_revisions.py:84-113 | the unknown pairs are those without a revision in the map |
| Revisions.InjectRevisions | tools/add_charm_revisions.py:84-113 | the two passes at every level, at any depth, do what a single pass does that knows where it is |
| Revisions.CollectedAfterInjection | tools/add_charm_revisions.py:60-113 | after injection the collection finds what it found before, in order, without the pairs whose revision is known |
| Revisions.InjectionOnlyAdds | tools/add_charm_revisions.py:84-113 | every value of the result was there before, at the same path, or is the known revision of a charm that had a channel and no revision; all of these are there; and a path leads to a dict exactly when it did before |
| Revisions.RevisionFollowsChannel | tools/add_charm_revisions.py:95-106 | the keys of a charm keep their order and the revision comes right after the channel |
| Revisions.InjectionIsIdempotent | tools/add_charm_revisions.py:84-113 | injecting the same revisions again changes nothing |
| Revisions.NothingToAdd | tools/add_charm_revisions.py:84-113 | where no collected pair has a known revision the manifest is unchanged |
| StatusCounter.TrailingCountsLatest | sunbeam-python/sunbeam/core/common.py:553-557 | a counter is at least n exactly when the latest n reports of the application were ready |
| StatusCounter.NbActiveApps | sunbeam-python/sunbeam/core/common.py:520-522 | counts the applications with a counter of four or more |
| StatusCounter.EnoughActiveIffAllOnline | sunbeam-python/sunbeam/core/common.py:520-541 | the loop condition fails exactly when the names are distinct and the latest four reports of every application were ready |
| StatusCounter.UpdateStatusThread.Run | sunbeam-python/sunbeam/core/common.py:524-564 | without a status object nothing happens; otherwise, on every stream of messages, each counter is the application's trailing run of ready messages, and the loop ends at the first moment at which all are online unless stopped before |

## Left out

- The generic `/config/{key}` endpoints and the state DELETE endpoint: they can change any row unguarded, so no statement about locks holds with them; the lock protocol has only LOCK, UNLOCK and state PUT. A forced unlock by an operator is an UNLOCK that is not well-behaved.
- JSON encoding of locks: an abstract codec that reads back what it wrote.
- Bytes that are not UTF-8: texts are sequences of characters.
- SQL engine, dqlite replication, raft: transactions are atomic; a transaction may fault, and its answer may be lost. A lost answer ends the request on the server too: a client that gives up while its handler is still running is not modelled.
- LockProtocol.MutualExclusion: assumes the client discipline `Proper` (a lock ID for one lock, re-sent LOCKs allowed; UNLOCK with the client's own triple after the grant, when none of its PUTs and UNLOCKs is unanswered). It does not say that a stored lock is always held: a LOCK re-sent before the UNLOCK may commit after it, which `AcquiredIsHeldIff` and `StoredLockWasGranted` delimit.
- The dicts that the override's variables hold may be shared between variables; values nested deeper are not aliased in the model.
- The stored record is a record with an optional set of computed keys instead of a dict with the reserved key `_computed_keys`; a variable of that name is not modelled beyond being dropped when a record is saved.
- TfvarLaws.OverriddenKeysStay: about full and partial runs only; `_clear_stale_revision_pin` in `sunbeam-python/sunbeam/steps/ingress.py` deletes a computed key from a stored record directly and is not among the runs.
- StorageCheck.EmptyReportProtectsStorage: about a tfvar that is mapped from storage attributes only, with no override naming it, which is how the storage variables are declared.
- Terraform, Juju and Kubernetes calls: a completed step has its full effect, a failed one any part of it. What the backup restore action does to the data, the lookup of discovered applications, of backups and of credentials, and retries are not part of the model.
- GateRuns.NodesConverge: for keys of distinct options, and options as a flat map: snap options nest on dots, and a gate whose option is a dotted prefix of another's, such as `feature.storage` next to `feature.storage.ceph`, is not modelled. Syncs that the debounce skips are no syncs of a run. The periodic loop is the arbitrary order of syncs.
- The body of `disable_feature` beyond its requirers check: it disables the feature or fails.
- NodeQuery.GetNodesStatement: statements are sequences of words, white space is not modelled, and the evaluator covers the statements that are built, not SQL. Ordering is that of the database; `Nodes.NodeTable.Query` states it.
- MergeHeap.DictObject.Update: for dicts that form trees with no common parts, as deep copies do.
- `SoftwareConfig.merge` and the other manifest merges: `merge_dict` on copies of the two sides, followed by pydantic validation, which is not modelled.
- Revisions.CollectedAfterInjection: a channel that is itself a dict, which makes the tool raise `TypeError`, is excluded; YAML lists are plain values, and dict keys are strings.
- `sort.Strings` is a library call of which only the result is modelled.
- Status messages on the console, prompts, tables, logging, HTTP handlers and access checks: user interface and plumbing.
- The other generated mappers, `match_hostname`, `DeploymentsConfig`, PCI specifications and token checks: same shape as what is here, or settled by one branch.
