# A verified model of the App Configuration Kubernetes provider

The provider is a Kubernetes controller. It copies key-values, feature flags and Key Vault
secrets that a provider object selects in an App Configuration store into one ConfigMap and
several Secrets, and then keeps them fresh with page ETags, sentinels and deadlines. This
project models the logic of that controller and proves what its design relies on. Verify all
of it with `dafny verify dfyconfig.toml`.

## What is modelled

**The reconcile state machine.** `ReconcileTypes`, `Processor` and `Reconciler` describe one
reconcile as a chain of fallible phases over a state of provider, cluster, store and the
reconciler's own record, as functions; `ProcessorObject` and `ControllerObject` are the same
code as the objects it is written with, whose methods update fields, share metadata by
reference and loop over maps, and which are proved to do exactly what the functions say. An
environment decides the fate of every external call: it succeeds, is lost before it takes
effect, or takes effect and still reports an error. It also decides the store versions that
each read sees, the values in Key Vault, the clock, and the order in which maps are visited.
A run is any sequence of reconciles, during which the store may move on, and of edits by
others: of spec, annotations, store, ConfigMaps and Secrets, and restarts of the controller.
A reconcile is atomic with respect to others' edits of the cluster. About this machine the
project proves:

- no store change is lost to the ConfigMap, and no Key Vault reference to a check of the page
  ETags (`NoLostUpdate`); exactly when a load that stops leaves Secrets behind
  (`SecretCalls`, `RecordedVersions`, `StoppedLoads`),
- no change that sentinels announce is lost, neither to the ConfigMap nor to the Key Vault
  references, as long as they stand still during full loads, and exactly when they must
  (`NoLostUpdate`, `Sentinels`, `Convergence`),
- exactly when a reconcile of any kind is done (`Plans`), which calls it then has made, what it
  records (`Records`), and what it leaves in the cluster, from the single setting in the store
  to the entry in a ConfigMap or a Secret (`Loads`, `EndToEnd`),
- drift is detected exactly (`SecretSync`), and what a reconcile that is done repairs, to the
  key (`Repair`, `SecretWrites`),
- Secrets are conserved and no object of another owner is touched (`SecretGuarantees`); for
  every event, when a Secret becomes an orphan and when it stops being one (`Orphans`),
- what a secret refresh renews, keeps and drops, for every shape of Secret (`SecretRefresh`,
  `SecretWrites`),
- a system at rest stays at rest (`Convergence`),
- refreshes are examined soon after their deadlines, and what is examined is fresh
  (`Deadlines`, `Staleness`); where a reconcile fails or panics, and what that does
  (`Stopping`, `Failures`).

The lemmas about one reconcile assume the predicate `NoLostUpdate.Invariant`;
`ReachableIsInvariant` shows that it holds in every reachable state. `Examples` has
states in the failing families of announced updates, drift, new Secrets and fetched flags.

**Documents.** `TypedSetting` shapes key-values and feature flags into ConfigMap data and
takes it apart again; `Tree` and `TreeNode` are the flat-to-hierarchical conversion, as a
value and as the mutable linked tree, and `TreeNames` tells from the settings alone whether
it goes through; `Decimal` is how child names read as numbers. Printing
and parsing of JSON and YAML are an assumed inverse pair (`Codec` with `Inverse`). `Jsonc`
strips the comments of JSON values before they are decoded a second time; `JsonPieces` tells
what is left from how such a text is written.

**Loading.** `Selectors`, `LastOccurrences`, `SettingLoader`, `SelectorMeaning` and
`FeatureFlags` are the selectors, their deduplication and what loading them means, and
`Classification` says where each setting goes;
`SettingsClient` is page-ETag recording and checking over an abstract pager; `SortedStrings`
is the canonical order of tags.

**Clients.** `Backoff`, `Rotation` and `ClientManager` are back-off, load balancing and
failover, with the wrappers and the manager as objects; `LoadBalancing` makes requests of a
manager in a row. Durations are exact integers of nanoseconds, the jitter draw is any real
in [0, 1).

`Clock`, `Wrappers` and `Sets` are small helpers.

## Where the code and its promises differ

The model does what the code does. A lemma says exactly when each promise is kept, and most
have one at a failing input or family of inputs as well.

- `createTypedSettings` (internal/loader/typed_setting.go:47-57) decodes a JSON value again
  without its comments but drops the result, so a JSON setting with comments stays text
  (`TypedSetting.CommentedNumberStaysText`; exactly: `TypedSetting.IntendedExactly`).
- Jitter is added after the ten-minute cap, so a delay can reach 750 s
  (`Backoff.JitterCanExceedTheCap`; exactly: `Backoff.CapHoldsExactly`).
- Child names such as "0" and "00" read as one number, so an object of such keys can leave a
  slot of an array unfilled, which the code then dereferences
  (`Tree.CollidingNamesDoNotBuild`, `TypedSetting.CollidingKeysFail`; exactly, for a node,
  for whole trees, for keys and for a reconcile: `Tree.ArrayIsTotalExactly`,
  `Tree.BuildsExactly`, `TypedSetting.KeysBuildExactly`, `Failures.LoadPanicsByKeys`).
- For JSON and YAML the ConfigMap is compared only at the configured key, so drift in other
  keys is not repaired (`TypedSetting.ExtraKeyStays`,
  `Repair.OtherKeysAreNotRepaired`; exactly: `TypedSetting.WrittenIsLatestExactly`,
  `Repair.DataIsRepairedExactly`).
- For a target Secret that is a json or yaml document the same holds (exactly:
  `SecretWrites.SecretIsRepairedExactly`, `SecretWrites.SecretIsRefreshedExactly`).
- With json, yaml or properties secret data a secret refresh lays a document of only the
  unversioned references over the old one and so drops the pinned values
  (`SecretRefresh.PinnedValueIsDropped`; exactly: `SecretRefresh.DocumentIsFullExactly`).
- A secret refresh that has to write into a live Secret without data panics, since its map is
  nil (exactly: `SecretRefresh.RefreshFailsExactly`). An empty Secret is nil when it is read
  back and differs from an empty map, so it is written again in every load.
- A panic leaves the phase Running in the status, which every later reconcile takes for a
  reconcile that is under way, also after a restart (`Failures.NothingAfterAPanic`; exactly:
  `Failures.PanicsExactly`, `Failures.LeftRunningExactly`).
- A full load that stops after the ConfigMap is written can leave nothing that calls for
  another one, although its Secrets are missing (`StoppedLoads.NewSecretIsNeverCreated`,
  `Examples.SecretIsNeverCreated`; exactly: `StoppedLoads.StoppedLoadIsInStepExactly`).
- A Secret that a stopped load or refresh has created, and that is deselected before the next
  one, is never deleted; nor is one that is deselected while the controller is down
  (`Orphans.DeselectedOverRestart`), and removing the section for Secrets deletes none
  (`Orphans.RemovedSectionDeletesNothing`). Exactly: `Orphans.OrphanIsCreatedExactly` and
  `Orphans.OrphansAreConserved` for reconciles, `Orphans.OrphansExactly` for every event.
- A full load reads the sentinels after the key-values, so a change announced in between is
  recorded as seen and not loaded (`Sentinels.MovedSentinelLosesUpdate`; exactly:
  `Sentinels.FullLoadLosesExactly`). A refresh reads them before and loses nothing
  (`Sentinels.RefreshLosesNothing`).
- A phase that fails after an earlier one has moved its deadline puts that refresh off by its
  interval (`Failures.FailureDelaysFetchedFlags`, `Examples.FlagsArePutOff`; exactly:
  `Deadlines.StoppedSetsDeadlines`, `Failures.FailedSetsDeadlines`). The update itself is not lost.
- Checking page ETags asks for the null label where a selector has no label, while loading
  asks for all labels. Only the default wildcard selector has no label
  (`SettingsClient.DefaultSelectorCanMissAnEdit`; exactly:
  `SettingsClient.CheckAsksFetchedQuery`). The state machine assumes key-filter selectors
  with labels, and no snapshots: for these checks are exact.
- The check looks only at key filters, and a snapshot that does not exist is read as empty, so
  that it is made later is not seen (`SettingsClient.CreatedSnapshotIsMissed`; exactly:
  `SettingsClient.UnchangedLoadsAlikeExactly`).
- A page without a list of settings is fetched but its ETag is not recorded
  (exactly: `SettingsClient.UnchangedStoreReadsUnchanged`).

## Model

| member | source | states |
|---|---|---|
| NoLostUpdate.NoUpdateIsLost | internal/controller/appconfigurationprovider_controller.go:86-275 | in every state reached by any run of reconciles, edits by others and restarts, with any external call failing: if recorded generation and ConfigMap version match the cluster, the ConfigMap stands for a full load of store versions at least as new as the recorded page ETags, so a change that is not written yet is still seen by a check |
| Processor.SelectedAreTracked | internal/loader/configuration_setting_loader.go:217-276 | what a load tracks: the target, which is Opaque, and each Secret with references, with exactly these and of the type that it was given |
| NoLostUpdate.NoReferenceIsLost | internal/controller/processor.go:310-328 | the Secret side, in every reachable state of the present spec: the tracked Secrets are the target and those with references, each with exactly its references, of a store version at least as new as the recorded page ETags, and the current ones if the check would find no change |
| Convergence.SelectedAreLive | internal/controller/processor.go:272-308 | in a reachable state that is in step, with no page changed, exactly the target and the Secrets to which current references go are live, at their recorded versions and with exactly these references |
| NoLostUpdate.ReconcileKeepsInvariant | internal/controller/appconfigurationprovider_controller.go:86-275 | one reconcile keeps the invariant wherever it stops; one that is done leaves generation and ConfigMap version matching |
| NoLostUpdate.EditKeepsInvariant | internal/controller/appconfigurationprovider_controller.go:140-191 | edits of spec, annotations, store, ConfigMaps and Secrets by others, and a restart of the controller, keep the invariant |
| NoLostUpdate.ReachableIsInvariant | internal/controller/appconfigurationprovider_controller.go:86-275 | the invariant holds in every reachable state |
| NoLostUpdate.NoAnnouncedUpdateIsLost | internal/controller/processor.go:158-171 | with monitored sentinels that stand still during every full load of the run: whenever a check of the recorded sentinels would find no change, the ConfigMap stands for key-values at which the sentinels were already the current ones, and the tracked Secrets and references are those of such key-values |
| NoLostUpdate.NoAnnouncedReferenceIsLost | internal/controller/processor.go:310-328 | whenever such a check would find no change, the tracked Secrets and references are those of a store version with the current sentinels; only the generation has to be the recorded one, so it holds while the ConfigMap has drifted, too |
| Convergence.AnnouncedAreLive | internal/controller/processor.go:272-308 | in a reachable state that is in step, if the sentinel check would find no change, exactly the Secrets that some store version with the current sentinels selects are live, at their recorded versions and with their references |
| Sentinels.FullLoadRecordsSentinels | internal/loader/configuration_setting_loader.go:115-133 | a full load that is done records the sentinels as they were read after the key-values |
| Sentinels.FullLoadLosesExactly | internal/loader/configuration_setting_loader.go:115-133 | after a full load that is done the ConfigMap covers the recorded sentinels if and only if they did not move between the fetch of the key-values and their reading |
| Sentinels.RefreshLosesNothing | internal/controller/processor.go:158-189 | a reconcile without a full load reads sentinels before it fetches: the ConfigMap covers those it records, if it covered those recorded before |
| Sentinels.MovedSentinelLosesUpdate | internal/loader/configuration_setting_loader.go:115-133 | the failing family: sentinels that move between fetch and reading are recorded as seen, so a check finds nothing, and what they announce is not in the ConfigMap |
| Examples.AnnouncedUpdateIsMissed | internal/loader/configuration_setting_loader.go:115-133 | there is a state at which this happens: a first load is done, records the sentinels of now, and leaves a ConfigMap that does not stand for the key-values of now |
| NoLostUpdate.PopulateFacts | internal/controller/processor.go:47-67 | all populating phases together: the data stands for known store versions, the ETags to be recorded are no newer, and what was due has been examined |
| NoLostUpdate.FinishedKeepsInvariant | internal/controller/processor.go:310-328 | the early-advanced ConfigMap version and the late-advanced generation and ETags fit together at the end |
| NoLostUpdate.StoppedAfterWriting | internal/controller/appconfigurationprovider_controller.go:233-270 | stopping after the ConfigMap is written, at any Secret, leaves ETags no newer than the ConfigMap |
| NoLostUpdate.StandsForExactly | internal/loader/typed_setting.go:18-85 | the ConfigMap stands for versions of the store, in all of these, if and only if a reader finds in it the key-values of the one and the flags of the other, said entry by entry or field by field |
| TypedSetting.TypedHolds | internal/loader/typed_setting.go:18-85 | the data made from key-values and flags: nothing if there are none; the texts; one entry of printed properties; or one entry that parses as a document with each field of the key-values and the section of the flags in place of any such field |
| TypedSetting.ReflectsExactly | internal/controller/utils.go:375-405 | live data stands for the data that is made if and only if a reader finds in it just that |
| TypedSetting.FlagRefreshReplaces | internal/loader/configuration_setting_loader.go:182-215 | a refresh of flags fails if and only if there is no document or no section of flags in it; otherwise it replaces the section and keeps all other fields |
| TypedSetting.KeyValueRefreshKeeps | internal/loader/configuration_setting_loader.go:156-180 | a refresh of key-values fails if and only if flags are wanted and there is no section of them; otherwise its data is that of the new key-values with the flags that were there |
| TypedSetting.FieldsAreContributed | internal/loader/typed_setting.go:39-65 | without a separator there is one field per setting: null, the decoded value of a JSON setting that decodes as it stands, or the text |
| TypedSetting.FeatureFlagRefreshIsFull | internal/loader/configuration_setting_loader.go:182-215 | a feature-flag refresh of data that stands for a full load yields the data of a full load with the new flags, with every field of the key-values and the new section |
| TypedSetting.KeyValueRefreshIsFull | internal/loader/configuration_setting_loader.go:156-180 | a key-value refresh yields the data of a full load with the new key-values and the flags found in the ConfigMap, field by field |
| TypedSetting.BothRefreshesAreFull | internal/controller/processor.go:120-184 | both refreshes in one run, the second on the outcome of the first, yield the data of a full load of both, field by field |
| TypedSetting.WrittenIsLatestExactly | internal/controller/utils.go:375-405 | the live data becomes the latest if and only if it is no document, or there was no document at the key, or that document was another, or nothing at all differed |
| TypedSetting.ExtraKeyStays | internal/controller/utils.go:383-402 | an extra key beside an unchanged document stays, although the latest data does not have it |
| TypedSetting.ParseSettings | internal/loader/typed_setting.go:41-71 | the loops that fill the document, in any map order: flat fields, or the document of the tree of the split keys |
| TypedSetting.ParseValue | internal/loader/typed_setting.go:45-59 | the two decodings, the second on the text that StripComments returns and with its result dropped, give the value a setting contributes |
| TypedSetting.IntendedExactly | internal/loader/typed_setting.go:47-57 | a JSON setting contributes the value it has without its comments if and only if it decodes as it stands, or does not decode without them either, or is without them the string of its own text |
| TypedSetting.CommentFreeIsIntended | internal/loader/typed_setting.go:47-57 | no text without comments misses its intended value |
| TypedSetting.CommentedNumberStaysText | internal/loader/typed_setting.go:47-57 | the failing family at one input: 1//x stays text although it decodes to 1 without its comment |
| TypedSetting.KeysBuildExactly | internal/loader/typed_setting.go:42-71 | in any map order, the key-values have a document if and only if nowhere below the root their split keys go on with names that make an array and of which two read as one number |
| TypedSetting.CollidingKeysFail | internal/loader/typed_setting.go:61-71 | keys a.0 and a.00, split at the dot, have no document, in any map order |
| TypedSetting.CollidingKeysDoNotBuild | internal/loader/typed_setting.go:61-71 | the failing family at one input, in terms of that condition |
| SecretSync.DriftDetectionIsExact | internal/controller/processor.go:272-308 | shouldReconcile, which compares only the numbers of Secrets, is false if and only if generation, annotations, ConfigMap version and all tracked Secret names and versions agree with the cluster |
| SecretGuarantees.SecretsAreConserved | internal/controller/appconfigurationprovider_controller.go:246-270 | after a reconcile that is done, the Secrets existing among target and previously tracked names are exactly the tracked ones, each at its recorded version |
| SecretSync.SyncConservesSecrets | internal/controller/appconfigurationprovider_controller.go:431-505 | syncing populated Secrets leaves every wanted one live, in step and with its version recorded, and none of the others |
| SecretSync.WriteSecretsAt | internal/controller/appconfigurationprovider_controller.go:431-482 | writing in any map order touches exactly the listed names |
| SecretSync.ExpelSecretsAt | internal/controller/appconfigurationprovider_controller.go:484-505 | expelling deletes exactly the listed names that are not kept |
| SecretSync.SyncCreatesOnlyWanted | internal/controller/appconfigurationprovider_controller.go:431-505 | a name neither wanted nor live stays away |
| SecretCalls.WritesTouch | internal/controller/appconfigurationprovider_controller.go:431-482 | writing, in any map order, goes through if and only if no needed call fails, and writes exactly the Secrets whose calls take effect |
| SecretCalls.DeletesTouch | internal/controller/appconfigurationprovider_controller.go:484-505 | the same for deleting |
| SecretCalls.SyncTouches | internal/controller/appconfigurationprovider_controller.go:243-270 | writing and deleting together, cut short by the first call that fails |
| RecordedVersions.ReachableIsRecorded | internal/controller/appconfigurationprovider_controller.go:431-482 | in every reachable state recorded Secret versions are versions that the cluster has given out |
| Orphans.OrphansAreConserved | internal/controller/appconfigurationprovider_controller.go:484-505 | for every name: the Secrets of the provider that it does not look at after a reconcile that is done are those of before that are still not selected |
| Orphans.OrphanIsCreatedExactly | internal/controller/appconfigurationprovider_controller.go:243-262 | any reconcile that is not done, full load or refresh, leaves a new such Secret if and only if it gets past the ConfigMap, reads all new names, and the write of a name that was neither tracked nor live takes effect |
| Orphans.AdoptedExactly | internal/controller/appconfigurationprovider_controller.go:243-262 | a reconcile that is done tracks a name it did not look at if and only if it loads Secrets and the version fetched selects the name |
| Orphans.OrphansExactly | internal/controller/appconfigurationprovider_controller.go:86-275 | for every event, a reconcile as well as any edit by others and a restart: when a name is such a Secret afterwards, from the state and the event |
| Orphans.DeselectedOverRestart | internal/controller/appconfigurationprovider_controller.go:140-155 | a Secret that is deselected while the controller is down is one after the restart, and the first load that is done leaves it as it is and untracked |
| Orphans.RemovedSectionDeletesNothing | internal/controller/appconfigurationprovider_controller.go:157-184 | without a section for Secrets nothing is deleted and nothing stays tracked, so all Secrets of the provider are left behind |
| SecretGuarantees.MetadataIsNeverMissing | internal/controller/appconfigurationprovider_controller.go:431-442 | createOrUpdateSecrets never dereferences a missing K8sSecrets entry |
| SecretGuarantees.ForeignSecretsAreLeftAlone | internal/controller/utils.go:202-224 | no reconcile, however it ends, changes or deletes a Secret of another owner |
| SecretGuarantees.ForeignConfigMapsAreLeftAlone | internal/controller/utils.go:202-224 | the same for ConfigMaps, and for every ConfigMap that is not the target |
| Repair.DriftIsRepaired | internal/controller/processor.go:69-84 | a reconcile that finds any drift and is done leaves the ConfigMap standing for exactly the fetched versions; of the target, the selected and the tracked Secrets exactly the target and the selected ones are live, with exactly their references and with the values or the certificate that Key Vault has for these |
| Processor.ResolvedHolds | internal/loader/configuration_setting_loader.go:522-616 | the data that references resolve to: the values that Key Vault has, as entries, as printed properties or as a document; of a TLS Secret key and certificate |
| Loads.DoneShows | internal/controller/appconfigurationprovider_controller.go:227-242 | after any reconcile that is done a reader finds in the ConfigMap the key-values and the flags that were fetched, or those of before where none were due or changed |
| Loads.LoadLeavesSecrets | internal/controller/appconfigurationprovider_controller.go:243-270 | after a reconcile that is done and has loaded key-values, in full or in a refresh, the target and the Secrets with references are tracked and live, each with exactly its references and the data that is due to them |
| Loads.LoadNeedsSection | internal/loader/configuration_setting_loader.go:304-306 | such a load has found no references unless there is a section for Secrets |
| Loads.TypesAndOwnersStay | internal/controller/appconfigurationprovider_controller.go:431-482 | no reconcile changes the type or the owners of a live Secret; a new one is the provider's alone and of the type that it is tracked with |
| Loads.MapOwnersStay | internal/controller/appconfigurationprovider_controller.go:378-429 | nor the owners of a ConfigMap; only the target is ever created |
| Loads.ReadyExactly | internal/controller/appconfigurationprovider_controller.go:123-205 | a reconcile gets ready if and only if the target objects and the tracked Secrets can be read and belong to no other, and clients are there for this generation or can be made; and what it has then forgotten |
| Loads.UnreadSecretsKeepRecord | internal/controller/appconfigurationprovider_controller.go:140-175 | a reconcile that cannot read a Secret leaves the record as it was, and begins one if there was none |
| Records.DoneCallsExactly | internal/controller/appconfigurationprovider_controller.go:207-275 | the calls of a reconcile that is done, in their order: the full load or the due checks and loads, the ConfigMap if it is stale, the stale Secrets, and the deletion of unwanted ones |
| Records.OthersBegin | internal/controller/appconfigurationprovider_controller.go:207-275 | a reconcile that ends in any other way has made the first ones of these calls, and no others |
| Records.CallsWhenDueExactly | internal/controller/processor.go:86-225 | each call of the store is made if and only if it is due by spec, deadlines and recorded ETags |
| Records.DoneRecordsExactly | internal/controller/processor.go:310-328 | what a reconcile that is done records: generation, annotations, and the ETags of what was fetched or, for sentinels, checked |
| Records.MapWriteExactly | internal/controller/appconfigurationprovider_controller.go:378-429 | what the write of the ConfigMap leaves: nothing if it is not needed or is lost, the data if it is made, and its version only if it is acknowledged |
| EndToEnd.SettingsReachTheConfigMap | internal/loader/configuration_setting_loader.go:217-404 | from the settings of the store to the cluster: with default data the ConfigMap has under each key the value of the last plain setting whose trimmed key it is, unless that has none, and nothing else |
| EndToEnd.SettingsReachTheDocument | internal/loader/typed_setting.go:18-85 | with a document whose keys are not split, the field of each key, but for the section of flags, is what the last plain setting of the key contributes |
| EndToEnd.ReferencesReachTheSecrets | internal/loader/configuration_setting_loader.go:278-347 | with default data the target has under each key the value that Key Vault has for the last reference of that key without a tag, and a tagged reference leads to its certificate in the Secret of its own name |
| Repair.FullLoadWritesExactly | internal/controller/appconfigurationprovider_controller.go:233-242 | the data that such a reconcile leaves in the ConfigMap: that of the full load, said entry by entry or field by field, or the old data where its write is skipped |
| Repair.DataIsRepairedExactly | internal/controller/utils.go:375-405 | the live data equals that of the full load if and only if the target is no document, or none was live at the key, or that document differed, or nothing differed |
| Repair.OtherKeysAreNotRepaired | internal/controller/utils.go:383-402 | the failing family: an extra key beside an unchanged document survives a full load that is done |
| Examples.ExtraKeyIsLeft | internal/controller/utils.go:383-402 | there is a state at which this happens: the first load after a restart is done and leaves the extra key |
| SecretWrites.WriteSecretsWrites | internal/controller/appconfigurationprovider_controller.go:431-482 | in any map order, each listed Secret ends with the latest data, or with its old data where the write is left out |
| SecretWrites.SecretIsRepairedExactly | internal/controller/utils.go:342-373 | after a full load that is done, a selected Secret has the data that is due to its references if and only if it is no document at the target, or did not exist, or its document had drifted, or nothing had |
| Convergence.DoneIsInStep | internal/controller/processor.go:310-328 | after a reconcile that is done nothing calls for a full load |
| Convergence.DoneOwns | internal/controller/appconfigurationprovider_controller.go:378-482 | all objects it leaves behind are owned by the provider |
| Convergence.RestDoesNothing | internal/controller/appconfigurationprovider_controller.go:157-274 | at rest with no deadline passed, a reconcile makes no store call, no write, no deletion and no change to the state |
| Convergence.Quiescence | internal/controller/appconfigurationprovider_controller.go:157-274 | after a reconcile that is done, with provider and cluster unchanged and no enabled deadline passed, the next reconcile does nothing, whatever happens to the store |
| Convergence.DoneSettles | internal/controller/processor.go:330-359 | a reconcile that is done has moved the deadlines of exactly what it examined, cleared the disabled ones and kept the rest |
| Deadlines.PopulateSetsDeadlines | internal/controller/processor.go:86-225 | the same for populating phases that are all through, as an equation on the whole state |
| Deadlines.StoppedSetsDeadlines | internal/controller/processor.go:47-67 | when populating stops, exactly the deadlines of the phases before the failing one that were due or part of a full load have moved |
| Stopping.PopulatingEndsExactly | internal/controller/processor.go:47-270 | which phase stops, and whether with an error or a panic, in closed form: from the fate of each call, the due deadlines, the changed pages or sentinels and the live Secrets without data |
| Failures.FailedSetsDeadlines | internal/controller/appconfigurationprovider_controller.go:233-270 | the same for every reconcile that fails or panics, wherever it does, for each kind of refresh; the failing phase is told from faults, due deadlines and changed pages |
| Failures.FailureDelaysFetchedFlags | internal/controller/processor.go:120-162 | the failing family: flags are fetched, the check of key-values fails, nothing is written, and the flags are not due again for a whole interval although their ETags stay old |
| Examples.FlagsArePutOff | internal/controller/processor.go:120-162 | there is a state at which this happens: at rest, with both refreshes due and the flags changed |
| Failures.PanicsExactly | internal/controller/appconfigurationprovider_controller.go:227-235 | a reconcile panics if and only if it gets to populate and then loads key-values without a document or writes into nil |
| Failures.LoadPanicsByKeys | internal/loader/typed_setting.go:61-71 | a full load panics if and only if it gets its settings, and these go to a document with split keys that somewhere go on with names that make an array and of which two read as one number |
| Failures.LeftRunningExactly | internal/controller/appconfigurationprovider_controller.go:101-127 | the phase Running is left behind if and only if the reconcile panics and its status patch is not lost |
| Failures.NothingAfterAPanic | internal/controller/appconfigurationprovider_controller.go:117-125 | from then on no reconcile does anything, whatever happens: after restarts, for new specs and for store changes alike |
| Plans.ReconcileIsDoneExactly | internal/controller/appconfigurationprovider_controller.go:86-275 | a reconcile, whether it loads in full, refreshes or has nothing to do, is done if and only if nothing keeps it from starting, all that exists can be read and taken over, no populating phase stops, and none of the writes and deletions that its data needs fails; which data and which calls is said from state, store and environment |
| Plans.PopulatedAsPlanned | internal/controller/processor.go:47-67 | what the populating phases together leave to be written and synced, for full loads and each combination of due refreshes |
| StoppedLoads.FullLoadIsDoneExactly | internal/controller/appconfigurationprovider_controller.go:123-275 | a full load is done if and only if all that exists can be read and taken over, the store gives a document, and none of the writes and deletions it needs fails |
| StoppedLoads.StoppedLoadIsInStepExactly | internal/controller/appconfigurationprovider_controller.go:233-270 | a full load that stops leaves nothing that calls for another if and only if the ConfigMap alone had drifted, the load gets past writing it, and stops before it touches a tracked Secret; the tracked Secrets are then as before |
| StoppedLoads.StoppedInStepIsAtRest | internal/controller/appconfigurationprovider_controller.go:157-274 | it then even leaves the system at rest |
| StoppedLoads.RestsForGood | internal/controller/appconfigurationprovider_controller.go:157-274 | without any refresh a system at rest stays as it is in every run of reconciles and store changes, whatever calls fail |
| StoppedLoads.NewSecretIsNeverCreated | internal/controller/appconfigurationprovider_controller.go:246-255 | the failing family: the ConfigMap alone has drifted, no refresh is enabled, and the name of a newly selected Secret cannot be read or taken over; the ConfigMap is written and the Secret is not created in any later run |
| Examples.SecretIsNeverCreated | internal/controller/appconfigurationprovider_controller.go:246-255 | there is a state at which this happens: a ConfigMap edited by others, a newly selected Secret, and one failing read of its name |
| Deadlines.PopulateIdles | internal/controller/processor.go:47-67 | with no full load and no refresh due, populating calls and populates nothing |
| Staleness.RequeueMeetsDeadlines | internal/controller/processor.go:377-396 | the requeue is at least a second, never later than any set deadline or a second, and never earlier than the earliest |
| Staleness.DoneSetsDeadlines | internal/controller/processor.go:310-359 | afterwards enabled deadlines are not in the past, disabled ones are zero, and the requeue is at least a second |
| Staleness.DoneExamines | internal/controller/processor.go:86-197 | the versions the ConfigMap stands for after a reconcile that is done are as fresh as what was examined |
| Staleness.ExaminedIsFresh | internal/controller/processor.go:86-270 | whatever a reconcile that is done has examined is as fresh as the store and Key Vault were: flags, key-values, with sentinels everything they had announced, and the references without a version of every live Secret, Opaque in any shape or TLS |
| Staleness.BoundedStaleness | internal/controller/processor.go:377-396 | in a run of reconciles that are done, whose wake-ups come no later than asked for, with edits of the cluster in between: every visit before the examining one is no later than the deadline, the examining one comes by the deadline or a second after the previous visit finished, and it leaves the refresh fresh in the sense of ExaminedIsFresh |
| Staleness.InstantaneousStaleness | internal/controller/processor.go:377-396 | if reconciles take no time, every enabled refresh is examined at most a second after its deadline |
| SecretRefresh.ResolvesExactlyUnversioned | internal/controller/processor.go:227-241 | resolved again are exactly the references without a version |
| SecretRefresh.OverlayIsOfUnversioned | internal/controller/processor.go:248-258 | for every shape of data a refresh lays over an Opaque Secret what the unversioned values alone make |
| SecretRefresh.OverlayIsExact | internal/controller/processor.go:248-263 | with default data, the set of Secrets stays, exactly the unversioned entries take the new value and all other entries keep their bytes |
| SecretRefresh.DocumentIsFullExactly | internal/controller/processor.go:227-258 | with json, yaml or properties a refresh that renews anything leaves the document of all references if and only if every reference with a value is without a version, given that the two sets of values, if different, print differently; one that renews nothing leaves the data alone |
| SecretRefresh.DocumentsSeparateExactly | internal/loader/typed_setting.go:87-124 | two sets of values print differently as json or yaml if and only if their documents differ or one is empty |
| SecretRefresh.PinnedValueIsDropped | internal/controller/processor.go:227-258 | the failing family at one input: of a pinned and an unversioned field, both live, the refreshed document has only the unversioned one |
| SecretRefresh.RefreshFailsExactly | internal/controller/processor.go:243-258 | a due refresh stops if and only if resolving fails or something is to be written into a live Secret whose data is nil, and it panics exactly in the second case |
| SecretRefresh.TlsOverlayIsWhole | internal/controller/processor.go:248-263 | a TLS Secret is renewed as a whole if and only if its one reference names no version |
| SecretRefresh.SecretRefreshOverlays | internal/controller/processor.go:199-270 | a whole reconcile, down to every live Secret: default entries one by one, a TLS Secret as a whole or byte for byte unchanged when its version is pinned, a document as that of the unversioned references |
| SecretRefresh.DueSecretsAreRenewed | internal/controller/processor.go:199-270 | after a due secret refresh or a full load every live tracked Secret, Opaque in any shape or TLS, holds the current values of its references without a version |
| SecretWrites.RefreshWritesSecrets | internal/controller/processor.go:199-270 | the data that a due refresh leaves in each tracked Secret of any type, exactly |
| SecretWrites.SecretIsRefreshedExactly | internal/controller/utils.go:342-373 | and it is that of the refresh if and only if the Secret is no document at the target, or its document differs, or nothing does |
| ProcessorObject.AppConfigurationProviderProcessor.ProcessFullReconciliation | internal/controller/processor.go:69-84 | the method updates processor and settings to what the function FullReconciliation says, in success and failure |
| ProcessorObject.AppConfigurationProviderProcessor.ProcessFeatureFlagRefresh | internal/controller/processor.go:86-132 | the method does what FeatureFlagRefresh says |
| ProcessorObject.AppConfigurationProviderProcessor.ProcessKeyValueRefresh | internal/controller/processor.go:134-197 | the method does what KeyValueRefresh says |
| ProcessorObject.AppConfigurationProviderProcessor.ProcessSecretReferenceRefresh | internal/controller/processor.go:199-270 | the method does what SecretReferenceRefresh says, and shares the metadata of the state by reference |
| ProcessorObject.AppConfigurationProviderProcessor.Populate | internal/controller/processor.go:47-67 | all phases, each on what the one before left, do what PopulateSettings says |
| ProcessorObject.AppConfigurationProviderProcessor.DetectDrift | internal/controller/processor.go:272-308 | the early returns and the loop decide exactly ShouldReconcile |
| ProcessorObject.AppConfigurationProviderProcessor.CalculateRequeueAfterInterval | internal/controller/processor.go:377-396 | the loop over the deadlines computes RequeueAfter |
| ProcessorObject.AppConfigurationProviderProcessor.Finish | internal/controller/processor.go:310-360 | the assignments make the finished state and the outcome |
| ProcessorObject.AnnotationChanged | internal/controller/processor.go:398-410 | comparing sizes and one direction of lookups decides inequality of the maps |
| ProcessorObject.CollectUnversioned | internal/controller/processor.go:227-241 | the nested loops collect exactly the unversioned references, Secret by Secret |
| ProcessorObject.OverlaySecrets | internal/controller/processor.go:248-263 | deep copies are overlaid in place; the live Secret objects are outside the frame and stay as they are |
| ControllerObject.AzureAppConfigurationProviderReconciler.Reconcile | internal/controller/appconfigurationprovider_controller.go:86-275 | the reconciler as an object ends, in every outcome, with the cluster, state, status phase, outcome and calls that the function Reconcile says |
| ControllerObject.AzureAppConfigurationProviderReconciler.PrepareState | internal/controller/appconfigurationprovider_controller.go:123-205 | reading what exists, first-time state, resetting and the client manager do what Prepare says |
| ControllerObject.CreateOrUpdateConfigMap | internal/controller/appconfigurationprovider_controller.go:378-429 | writes or skips, and records the version, as WriteConfigMap says, under every fate of the write |
| ControllerObject.CreateOrUpdateSecrets | internal/controller/appconfigurationprovider_controller.go:431-482 | the loop over the Secrets does what WriteSecrets says, recording versions through the shared metadata |
| ControllerObject.ExpelRemovedSecrets | internal/controller/appconfigurationprovider_controller.go:484-505 | the loop over the existing Secrets does what ExpelSecrets says |
| ControllerObject.ResetState | internal/controller/appconfigurationprovider_controller.go:177-191 | forgets versions of objects that are gone, and all tracked Secrets when none are wanted |
| ControllerObject.CollectExistingSecrets | internal/controller/appconfigurationprovider_controller.go:157-175 | reads all names and succeeds if and only if every read does and no Secret has another owner |
| ControllerObject.VerifyExistingTargetObject | internal/controller/utils.go:202-224 | an object may be taken over if and only if some owner reference agrees in API version, kind, name and UID |
| ControllerObject.HasNonEscapedValueInLabel | internal/controller/utils.go:226-240 | true if and only if some star or comma is not escaped, escaping being decided by the parity of the backslashes before it |
| Backoff.AttemptsIsTrailingRun | internal/loader/configuration_setting_loader.go:703-720 | for every history the counter is plus the length of the trailing run of failures or minus that of the trailing run of successes |
| Backoff.UnjitteredIsBaseDelay | internal/loader/configuration_client_manager.go:470-482 | neither the shift limit nor the overflow guard changes min(30s doubled per failure, 600s) |
| Backoff.BaseDelayMonotone | internal/loader/configuration_client_manager.go:470-482 | the base delay does not decrease and lies in [30s, 600s] |
| Backoff.JitterWithinQuarter | internal/loader/configuration_client_manager.go:484-493 | jitter moves a duration by at most a quarter |
| Backoff.BackoffBounds | internal/loader/configuration_client_manager.go:470-493 | the delay lies in [30s, 750s] and within a quarter of the base delay |
| Backoff.CapHoldsExactly | internal/loader/configuration_client_manager.go:470-493 | the delay with its jitter stays within ten minutes if and only if there were at most five failures or the draw adds less than a nanosecond |
| Backoff.JitterCanExceedTheCap | internal/loader/configuration_client_manager.go:470-493 | the failing family at one input: six failures and a draw above one half |
| ClientManager.ConfigurationClientWrapper.UpdateBackoffStatus | internal/loader/configuration_setting_loader.go:703-720 | counter and back-off end after one attempt |
| ClientManager.AvailableIsExact | internal/loader/configuration_client_manager.go:159-187 | exactly the clients not in back-off are available, each once |
| ClientManager.ConfigurationClientManager.GetClients | internal/loader/configuration_client_manager.go:159-187 | the available static clients, then the available dynamic ones; discovery runs if and only if it is due, and its time is recorded |
| ClientManager.ConfigurationClientManager.DiscoverFallbackClients | internal/loader/configuration_client_manager.go:199-255 | if look-up and building succeed, the dynamic clients are fresh wrappers, one with https per accepted host; if not, nothing changes |
| ClientManager.BuildShuffled | internal/loader/configuration_client_manager.go:222-250 | the hosts are shuffled and, unless some client cannot be built, each accepted host gives an endpoint with https as often as it is listed, and nothing else does |
| ClientManager.Shuffle | internal/loader/configuration_client_manager.go:224-228 | the shuffle is a permutation for every sequence of draws |
| ClientManager.ConfigurationClientManager.ExecuteFailoverPolicy | internal/loader/configuration_setting_loader.go:639-701 | which static and dynamic clients count as available; the order of attempts, as listed unless load balancing is on and some client comes right after the first of the endpoint that succeeded last, which is then tried first; each available client at most once, the response, the log of attempts, the back-off of each tried wrapper and of no other, and the last successful endpoint; the class invariant says that no surviving client was ever retried within 30s of a failure |
| ClientManager.RequestSucceeds | internal/loader/configuration_setting_loader.go:671-698 | a request succeeds if and only if some client succeeds and all before it fail failoverably |
| Rotation.ThreeReversals | internal/loader/configuration_setting_loader.go:1061-1073 | three reversals are a rotation |
| Rotation.Rotate | internal/loader/configuration_setting_loader.go:1061-1081 | the in-place rotation equals the rotated sequence |
| Rotation.ReverseSegment | internal/loader/configuration_setting_loader.go:1075-1081 | the in-place reversal of a segment |
| Rotation.RoundRobinIsFair | internal/loader/configuration_setting_loader.go:650-664 | with n >= 2 distinct named clients and no failure, any n consecutive requests use each client exactly once |
| Rotation.TriesInOrder | internal/loader/configuration_setting_loader.go:650-664 | without load balancing the order is as listed; with it, it begins right after the first position of the endpoint that succeeded last, if there is one |
| Rotation.ServingAdvances | internal/loader/configuration_setting_loader.go:650-664 | positions advance by one per request and wrap around |
| LoadBalancing.ServeInTurn | internal/loader/configuration_setting_loader.go:639-701 | n calls of ExecuteFailoverPolicy, each answered by the first client it tries: over the appended log the clients take turns, any |clients| requests in a row use each exactly once |
| LoadBalancing.TurnsAreFair | internal/loader/configuration_setting_loader.go:650-664 | the serving sequence that the requests follow is fair |
| Tree.AtInsert | internal/loader/tree.go:15-44 | what inserting one setting does to every path of the tree |
| Tree.AtInsertAll | internal/loader/typed_setting.go:42-71 | what a node holds after all insertions |
| Tree.InsertionOrderDoesNotMatter | internal/loader/tree.go:15-44 | settings whose leaves do not clash build the same tree in every order, also when one path is a prefix of another |
| Tree.InsertionsCommuteExactly | internal/loader/tree.go:15-44 | two insertions commute if and only if they put no different scalars at one path |
| Tree.ArrayIsTotalExactly | internal/loader/tree.go:55-86 | the array branch fills every slot if and only if no two names read as one number |
| Tree.UnflattensExactly | internal/loader/tree.go:55-86 | a node has a document if and only if no array-like node in it has two names that read as one number |
| Tree.BuildsExactly | internal/loader/tree.go:46-86 | a whole tree has a document if and only if that holds of every node below the root |
| TreeNames.BuildsByPaths | internal/loader/tree.go:46-86 | the same told from the inserted paths and values alone |
| Tree.CollidingNamesDoNotBuild | internal/loader/tree.go:55-86 | the failing family: two names that both read as zero below one node |
| Tree.CanonicalNamesFillArrays | internal/loader/tree.go:55-86 | canonical decimal names fill every slot |
| Tree.LookupFindsNode | internal/loader/tree.go:46-86 | with canonical names, looking up a path in the built document finds the document of that node |
| Tree.BuiltDocumentHasScalar | internal/loader/typed_setting.go:42-71 | looking up an inserted path returns its scalar whenever no inserted path extends it |
| Tree.RoundTripExactly | internal/loader/tree.go:15-86 | a value comes back if and only if it has no empty object or array and no object all of whose n keys read as numbers below n |
| Tree.InsertedValueRoundTrips | internal/loader/tree.go:15-86 | the same at any fresh path of any tree |
| Decimal.AtoiOfItoa | internal/loader/tree.go:35-38 | reading back a printed index |
| Decimal.NamesCollide | internal/loader/tree.go:63-70 | signs and leading zeros give one number several names |
| TreeNode.Node.Insert | internal/loader/tree.go:15-44 | the mutable tree after an insertion is the tree of the specification, with its footprint grown by fresh nodes only |
| TreeNode.Node.SetFields | internal/loader/tree.go:29-34 | the fields of an object, visited in any order |
| TreeNode.Node.SetItems | internal/loader/tree.go:35-38 | the items of an array, in order |
| TreeNode.FillSlots | internal/loader/tree.go:60-78 | decides whether children are an array and fills the slots |
| TreeNode.UnflattenNode | internal/loader/tree.go:55-86 | the document of a node, or the failure of an unfilled slot |
| TreeNode.BuildRoot | internal/loader/tree.go:46-53 | the document of the root |
| Jsonc.StripComments | internal/jsonc/jsonc.go:9-88 | the loop with index and flags agrees with the recursive lexer |
| Jsonc.StripKeepsLayout | internal/jsonc/jsonc.go:14-85 | newlines stay, and each output line is a blanked prefix of its input line |
| Jsonc.StripLeavesNoComment | internal/jsonc/jsonc.go:14-85 | no comment opener is left outside a string literal |
| Jsonc.StripIsIdempotent | internal/jsonc/jsonc.go:14-85 | stripping again changes nothing, and a text is a fixed point if and only if it is free of comments |
| Jsonc.StripPreservesMeaning | internal/jsonc/jsonc.go:9-88 | every byte a decoder can see comes through, at the same line and column and lexed the same way |
| JsonPieces.LiteralComesThrough | internal/jsonc/jsonc.go:17-31 | a string literal, quotes with any escapes between them, comes through byte for byte before any rest |
| JsonPieces.OpenLiteralComesThrough | internal/jsonc/jsonc.go:17-31 | so does one that is not terminated |
| JsonPieces.PiecesAreStripped | internal/jsonc/jsonc.go:9-88 | of a text written as bytes, literals, line comments and block comments exactly the comments are blanked out, newlines apart |
| JsonPieces.StripExactly | internal/jsonc/jsonc.go:9-88 | every text is written so, and that is what is left of it |
| Selectors.MakeComparable | api/v1/azureappconfigurationprovider_types.go:261-290 | the steps and the in-place sort of the tags compute the comparable form |
| Selectors.ComparableRoundTrip | api/v1/azureappconfigurationprovider_types.go:261-316 | rebuilding a selector loses nothing but the tag order |
| Selectors.ComparableIsCanonical | api/v1/azureappconfigurationprovider_types.go:261-290 | two selectors have one comparable form if and only if they are equal up to tag order |
| Selectors.NormalizeFilter | internal/loader/configuration_setting_loader.go:811-838 | selector by selector, absent and empty labels become the null label and each tag is kept where it first occurs |
| Selectors.NormalizedExactly | internal/loader/configuration_setting_loader.go:811-838 | absent and empty labels have become the null label, each tag is there once in the order of first occurrence, and nothing else has changed |
| Selectors.FirstOccurrencesAreExact | internal/loader/configuration_setting_loader.go:811-838 | exactly the given tags are kept, each once |
| Selectors.FirstOccurrencesInOrder | internal/loader/configuration_setting_loader.go:811-838 | and in the order in which they first occur |
| Selectors.DeduplicateFilters | internal/loader/configuration_setting_loader.go:840-923 | the backward scan and the in-place reversal compute the last occurrences in order |
| LastOccurrences.SelectionIsExact | internal/loader/configuration_setting_loader.go:840-876 | each key is kept exactly once, with its last element, and a second pass changes nothing |
| LastOccurrences.SelectsOnlyLast | internal/loader/configuration_setting_loader.go:840-876 | what is kept are last positions, in their order |
| SettingLoader.RawSettings.ProcessSettings | internal/loader/configuration_setting_loader.go:278-404 | the loop that fills the maps, including nested snapshot references, computes Process |
| SelectorMeaning.ProcessIsApply | internal/loader/configuration_setting_loader.go:278-404 | classification is a sequence of writes, with snapshot references expanded in place exactly one level deep |
| Classification.TrimsExactly | internal/loader/configuration_setting_loader.go:722-732 | the key is what the first listed prefix that it has leaves of it, or all of it |
| Classification.OthersAreSkipped | internal/loader/configuration_setting_loader.go:278-298 | settings without a key or with nothing left of it, feature flags, and snapshot references without a value or within a snapshot are skipped |
| Classification.PlainIsStored | internal/loader/configuration_setting_loader.go:289-293 | a plain setting is stored by its trimmed key, with its value and whether it is JSON |
| Classification.ReferenceIsCollected | internal/loader/configuration_setting_loader.go:299-347 | a reference is valid if and only if it has a value that parses, a target, a resolver and no tag but that of certificates; without a tag it goes to the target, with it to a Secret of its own name, and nothing else changes |
| Classification.UnfoldsExactly | internal/loader/configuration_setting_loader.go:348-386 | classifying snapshot references is classifying the settings of their snapshots in their place |
| Classification.LastWins | internal/loader/configuration_setting_loader.go:278-404 | a list fails if and only if it has an invalid reference; otherwise under each key the last plain setting and, in each Secret, the last reference wins |
| Classification.CreatedExactly | internal/loader/configuration_setting_loader.go:217-404 | the same for a whole load, from loading the selectors to the maps |
| SelectorMeaning.KindsAreByName | internal/loader/configuration_setting_loader.go:238-350 | after loading any selectors the target is there and is Opaque, also if a reference tagged as a certificate has its name, and every other Secret is a certificate |
| SelectorMeaning.OverwrittenHasNoEffect | internal/loader/configuration_setting_loader.go:278-404 | writes whose slots are all assigned later have no effect |
| SelectorMeaning.DeduplicationPreservesMeaning | internal/loader/configuration_setting_loader.go:217-276 | for a fixed store and a non-empty list, the deduplicated selectors give the key-value, content-type and Key Vault maps, or the error, that all of them give |
| FeatureFlags.SelectedAreLast | internal/loader/configuration_setting_loader.go:484-512 | which flags are kept: those at the positions behind which their keys do not occur any more, in their order |
| FeatureFlags.Deduplicate | internal/loader/configuration_setting_loader.go:484-512 | the backward scan with a table and the reversal keep the last flag of each key, in order; only a kept flag can fail to decode |
| SettingsClient.CheckSelector | internal/loader/settings_client.go:42-91 | the paging loop decides whether a selector has changed |
| SettingsClient.CheckPageETags | internal/loader/settings_client.go:42-91 | for every map order, a change is reported if and only if some recorded selector has changed, unless a page cannot be read |
| SettingsClient.CheckAsksFetchedQuery | internal/loader/settings_client.go:45-66 | the check asks the query that was loaded if and only if the selector has a label |
| SettingsClient.GetSettings | internal/loader/settings_client.go:124-163 | loads the selectors in order and records the page ETags of each |
| SettingsClient.LoadsInOrder | internal/loader/settings_client.go:124-163 | loading asks for the key filter, label and tags of each selector, or for its snapshot, and joins the settings of all pages of all selectors in order; it fails if and only if one cannot be read |
| SettingsClient.ChecksWhatIsAsked | internal/loader/settings_client.go:42-91 | checking asks for the same, with the null label for none, and finds a change if and only if the ETags of the pages differ from the recorded ones |
| SettingsClient.CheckSeesExactlyTheEdits | internal/loader/settings_client.go:42-163 | recorded at one time and checked at another, the ETags show a change if and only if some page has changed |
| SettingsClient.UnchangedStoreReadsUnchanged | internal/loader/settings_client.go:139-148 | an unchanged store reads as unchanged if and only if every page came with a list of settings |
| SettingsClient.UnchangedLoadsAlikeExactly | internal/loader/settings_client.go:42-171 | when the check finds no change and equal ETags mean equal pages, all selectors load as before if and only if no selected snapshot has been made or replaced |
| SettingsClient.CreatedSnapshotIsMissed | internal/loader/settings_client.go:45-50 | the failing family: a snapshot that is missing at the load reads as empty, and no check sees that it is made later, although loading it then gives a setting |
| SettingsClient.DefaultSelectorCanMissAnEdit | internal/loader/configuration_setting_loader.go:773-791 | an edit that the check of the default selector does not see |
| SettingsClient.CreateKeyValueSettings | internal/loader/configuration_setting_loader.go:217-276 | normalizing, deduplicating, loading and classifying yields the outcome of the selectors as listed |

## Left out

- Azure SDK clients, credentials, SRV look-ups, HTTP headers and request tracing: an oracle with a contract stands for them.
- The Kubernetes API, caches, watches, event filters, labels and annotations of written objects: the cluster is a map of objects with owners, data and a version bumped on each write.
- Status messages, all phases but Running, edits of the status by others, and the retry delay after a failed reconcile, including the Retry-After header.
- The verification of a spec: only the rule that the proofs rely on is kept, that feature flags need a json or yaml ConfigMap; the state machine proves its results for all refresh intervals.
- JSON, YAML, properties, PEM and PKCS12 formats, URL and UUID parsing, and content-type text: values with an assumed inverse pair, or parameters. The order of printed properties is unspecified in the original too.
- Goroutines, error groups and mutexes in the resolution of secret references, and the discovery channel: results are maps, filled in any order.
- Page ETags inside the state machine are store versions; `SettingsClient` proves separately that checks of page ETags are exact. The hierarchical key-values of a store version are one value there; `Tree` proves separately that the map order does not matter.
- createTypedSecrets: the tree that it builds from secret values is a parameter of the environment, so that an unfilled slot there is not captured; its document is printed as the code prints it. For key-values, whether the tree has a document is a part of each store version; `Failures.LoadPanicsByKeys` ties it to the keys.
- Telemetry metadata of feature flags: a decoded flag is a parameter.
- The provider's deletion and re-creation under the same name with a generation that is used again.
- A Secret or ConfigMap with empty rather than nil data in the cluster: an empty map is taken to read back as nil, as the API server leaves it out.
- The ETags of single sentinels: the sentinels of a store version are one count of their changes, and one check reads all of them at one version.
- The identity of pointers inside comparable selectors: labels and key filters are compared by value.
- TreeNode.Node.Insert: walks by recursion where the original moves a cursor, because a recursive walk keeps the footprint of each node local.
- ProcessorObject.AppConfigurationProviderProcessor.ProcessFeatureFlagRefresh: its later half is a method of its own, as are those of the other phases, and options are a record value that is assigned as a whole; the processor holds the only reference to them.
- Staleness.BoundedStaleness: is about runs in which every reconcile is done; `Failures` says what the others do to the deadlines.
- SecretRefresh.OverlayIsExact: is about default secret data; OverlayIsOfUnversioned and DocumentIsFullExactly are about the other shapes.
- SecretRefresh.DocumentIsFullExactly: assumes of the two sets of values that they print differently if they differ (`Separates`); `DocumentsSeparateExactly` says when json and yaml do, and printed properties are not read back.
- LoadBalancing.ServeInTurn: is about requests that no discovery and no failure interrupts; a manager has one static client, so the others are replicas.
- SettingsClient.CheckSeesExactlyTheEdits: is about edits of the pages of key-filter selectors with a label, see above.
- EndToEnd.SettingsReachTheDocument: is about keys that are not split; what a document of split keys has is said by `Tree.BuiltDocumentHasScalar` and `TypedSetting.KeysBuildExactly`.
- EndToEnd.ReferencesReachTheSecrets: is about default secret data; `Loads.LoadLeavesSecrets` is about every shape.
