/** The provider, the cluster, the store and the reconciler's state
    (internal/controller/appconfigurationprovider_controller.go:44-64,
    internal/controller/processor.go:20-45 and internal/loader/configuration_setting_loader.go:46-60). */
module ReconcileTypes {
  import opened Clock
  import opened Wrappers
  import opened TypedSetting
  import SettingLoader

  // ---------------------------------------------------------------- the provider

  datatype Refresh = Refresh(enabled: bool, interval: Time)

  datatype SecretSpec = SecretSpec(target: string, secretData: Option<DataOptions>, refresh: Option<Refresh>)

  /** `featureFlag` is Some when the section is present, with or without a refresh. */
  datatype Spec = Spec(
    configMapName: string,
    configMapData: Option<DataOptions>,
    keyValueRefresh: Option<Refresh>,
    monitoring: bool,
    featureFlag: Option<Option<Refresh>>,
    secret: Option<SecretSpec>)

  predicate Enabled(r: Option<Refresh>) { r.Some? && r.value.enabled }

  predicate KeyValueRefreshEnabled(spec: Spec) { Enabled(spec.keyValueRefresh) }
  predicate FeatureFlagRefreshEnabled(spec: Spec) { spec.featureFlag.Some? && Enabled(spec.featureFlag.value) }
  predicate SecretRefreshEnabled(spec: Spec) { spec.secret.Some? && Enabled(spec.secret.value.refresh) }

  /** The part of the verification of a spec that the rest relies on. */
  predicate ValidSpec(spec: Spec) {
    spec.featureFlag.Some? ==> IsDocument(spec.configMapData)
  }

  datatype OwnerReference = OwnerReference(apiVersion: string, kind: string, name: string, uid: string)

  datatype Provider = Provider(self: OwnerReference, generation: int, annotations: map<string, string>, spec: Spec)

  // ---------------------------------------------------------------- the cluster

  /** Objects carry the resource version of their last write. */
  datatype ConfigMap = ConfigMap(owners: seq<OwnerReference>, data: Data, version: nat)
  datatype Secret = Secret(owners: seq<OwnerReference>, kind: SettingLoader.SecretType, data: Data, version: nat)

  /** The ConfigMaps and Secrets of the provider's namespace; every write takes a new version. */
  datatype Cluster = Cluster(configMaps: map<string, ConfigMap>, secrets: map<string, Secret>, nextVersion: nat)

  predicate Owned(owners: seq<OwnerReference>, provider: Provider) { provider.self in owners }

  // ---------------------------------------------------------------- the store

  /** What the provider's selectors see in the store: key-values as they go into a ConfigMap,
      and the Key Vault references by Secret name; whether the key-values make a document at all,
      or leave a slot of an array unfilled; and how often its sentinels have changed. */
  datatype Content = Content(
    settings: KeyValues,
    references: map<string, SettingLoader.TargetSecret>,
    buildable: bool,
    sentinel: nat)

  /** All that the key-value and feature-flag selectors have seen, oldest first; the position
      in the history is the version that the page ETags stand for. */
  datatype Store = Store(keyValues: seq<Content>, featureFlags: seq<Fields>)

  // ---------------------------------------------------------------- the reconciler's state

  /** A tracked Secret; no version once it was found missing, or before it is written. */
  datatype Tracked = Tracked(kind: SettingLoader.SecretType,
                             references: map<string, SettingLoader.KeyVaultSecretMetadata>, version: Option<nat>)

  /** ETag maps are represented by the store version they were read at; None is an empty map. */
  datatype Recon = Recon(
    generation: int,
    annotations: map<string, string>,
    configMapVersion: Option<nat>,
    sentinelETags: Option<nat>,
    keyValueETags: Option<nat>,
    featureFlagETags: Option<nat>,
    secrets: map<string, Tracked>,
    nextKeyValue: Time,
    nextSecret: Time,
    nextFeatureFlag: Time,
    hasClientManager: bool)

  const INITIAL: Recon := Recon(-1, map[], None, None, None, None, map[], 0, 0, 0, false)

  /** `running` is the phase in the provider's status: it is left behind by a reconcile that
      panicked, and by no other. */
  datatype State = State(provider: Provider, cluster: Cluster, store: Store, recon: Option<Recon>, running: bool)

  // ---------------------------------------------------------------- one reconcile

  /** The external calls of a reconcile. */
  datatype Call =
    | GetConfigMap | GetSecret(name: string) | GetNewSecret(name: string) | NewClientManager
    | CreateTargetSettings | CheckFeatureFlagETags | RefreshFeatureFlagSettings
    | CheckSentinels | CheckKeyValueETags | RefreshKeyValueSettings | ResolveSecretReferences
    | PutConfigMap | PutSecret(name: string) | DeleteSecret(name: string) | PatchStatus

  /** A call succeeds, is lost before it takes effect, or takes effect but reports an error. */
  datatype Fault = Fine | Lost | Unacknowledged

  /** What one reconcile meets: the time it starts and ends, the fate of each call, the store
      versions that its reads see, the values in Key Vault, and the order in which it visits
      the keys of a map. */
  datatype Env = Env(
    now: Time,
    finish: Time,
    fault: Call -> Fault,
    keyValuesChecked: nat,
    keyValuesFetched: nat,
    featureFlagsChecked: nat,
    featureFlagsFetched: nat,
    sentinelChecked: nat,
    sentinelRead: nat,
    vault: SettingLoader.KeyVaultSecretMetadata -> Option<string>,
    certificate: SettingLoader.KeyVaultSecretMetadata -> (string, string),
    secretFields: Data -> Fields,
    order: set<string> -> seq<string>)

  /** The sentinels at a version. */
  function SentinelAt(store: Store, version: nat): nat {
    if version < |store.keyValues| then store.keyValues[version].sentinel else 0
  }

  /** A count of changes does not go back. */
  ghost predicate SentinelsAdvance(history: seq<Content>) {
    forall i, j :: 0 <= i <= j < |history| ==> history[i].sentinel <= history[j].sentinel
  }

  /** Reads see the store at versions between the start and the end of the reconcile, checks
      before fetches, except that a full load reads its sentinels after its key-values; time does
      not run backwards; orders list the keys. `store` is the store
      at the end. */
  ghost predicate ValidEnv(env: Env, start: Store, store: Store) {
    && start.keyValues != [] && start.featureFlags != []
    && start.keyValues <= store.keyValues && start.featureFlags <= store.featureFlags
    && SentinelsAdvance(store.keyValues)
    && |start.keyValues| - 1 <= env.keyValuesChecked <= env.keyValuesFetched < |store.keyValues|
    && |start.keyValues| - 1 <= env.sentinelChecked <= env.keyValuesFetched <= env.sentinelRead < |store.keyValues|
    && |start.featureFlags| - 1 <= env.featureFlagsChecked <= env.featureFlagsFetched < |store.featureFlags|
    && 0 < env.now <= env.finish
    && forall keys :: Lists(env.order(keys), keys)
  }

  datatype SecretContent = SecretContent(kind: SettingLoader.SecretType, data: Data)

  /** The metadata of the settings' Secrets: a map of its own, or the very map of the
      reconciler's state. */
  datatype Metadata = Own(secrets: map<string, Tracked>) | Shared

  datatype Settings = Settings(configMap: Option<Data>, secrets: map<string, SecretContent>, metadata: Metadata)

  datatype RefreshOptions = RefreshOptions(
    keyValueRefreshEnabled: bool,
    secretReferenceRefreshEnabled: bool,
    secretReferenceRefreshNeeded: bool,
    featureFlagRefreshEnabled: bool,
    featureFlagRefreshNeeded: bool,
    configMapSettingPopulated: bool,
    secretSettingPopulated: bool,
    sentinelChanged: bool,
    keyValuePageETagsChanged: bool,
    updatedSentinelETags: Option<nat>,
    updatedKeyValueETags: Option<nat>,
    updatedFeatureFlagETags: Option<nat>)

  const NEW_OPTIONS: RefreshOptions :=
    RefreshOptions(false, false, false, false, false, false, false, false, false, None, None, None)

  /** A reconcile in progress. `trace` lists the calls to the store and the writes and
      deletions, done or tried; `panicked` tells a nil dereference from an error. */
  datatype Run = Run(
    recon: Recon,
    cluster: Cluster,
    shouldReconcile: bool,
    settings: Settings,
    options: RefreshOptions,
    trace: seq<Call>,
    panicked: bool)

  function MetadataOf(run: Run): map<string, Tracked> {
    if run.settings.metadata.Own? then run.settings.metadata.secrets else run.recon.secrets
  }

  /** A phase goes on, stops the reconcile with an error or a panic, or misses the metadata of
      a Secret. */
  datatype Step = Go(run: Run) | Stop(run: Run) | Crash(run: Run)

  /** How a reconcile ends: skipped because one seems to be running, not started because the
      spec is invalid, with an error, with a panic, with missing metadata, or done, with the
      time after which to come back if any refresh is enabled. */
  datatype Outcome = Skipped | Rejected | Failed | Panicked | Crashed | Done(requeueAfter: Option<Time>)
}
