/** One reconcile, and runs of the whole system
    (Reconcile and its helpers in internal/controller/appconfigurationprovider_controller.go,
    shouldCreateOrUpdateSecret in internal/controller/utils.go). */
module Reconciler {
  import opened Wrappers
  import opened TypedSetting
  import opened ReconcileTypes
  import opened Processor

  // ---------------------------------------------------------------- reading the cluster

  /** Reading an object fails when the call fails or another owns the object. */
  predicate Reads(env: Env, call: Call, owners: Option<seq<OwnerReference>>, provider: Provider) {
    env.fault(call) == Fine && (owners.Some? ==> Owned(owners.value, provider))
  }

  function ConfigMapOwners(cluster: Cluster, name: string): Option<seq<OwnerReference>> {
    if name in cluster.configMaps then Some(cluster.configMaps[name].owners) else None
  }

  function SecretOwners(cluster: Cluster, name: string): Option<seq<OwnerReference>> {
    if name in cluster.secrets then Some(cluster.secrets[name].owners) else None
  }

  /** The live Secrets of the given names. */
  function Live(cluster: Cluster, names: set<string>): map<string, Secret> {
    if names !! cluster.secrets.Keys then map[]
    else map n | n in names && n in cluster.secrets :: cluster.secrets[n]
  }

  /** The Secrets that a reconcile looks for first. */
  function NamesToCollect(spec: Spec, recon: Recon): set<string> {
    if spec.secret.Some? then {spec.secret.value.target} + recon.secrets.Keys else {}
  }

  // ---------------------------------------------------------------- resetting the state

  /** Forgets the ConfigMap when it is gone, the Secrets when none are wanted, and the
      versions of tracked Secrets that are gone. */
  function Reset(spec: Spec, recon: Recon, cluster: Cluster): Recon {
    recon.(
      configMapVersion := if spec.configMapName in cluster.configMaps then recon.configMapVersion else None,
      secrets :=
        if spec.secret.None? || recon.secrets == map[] then map[]
        else map n | n in recon.secrets :: if n in cluster.secrets then recon.secrets[n]
          else recon.secrets[n].(version := None))
  }

  // ---------------------------------------------------------------- writing

  /** Creates or replaces; the owners of an existing object stay. */
  function WithConfigMap(cluster: Cluster, provider: Provider, data: Data): Cluster {
    var name := provider.spec.configMapName;
    var owners := if name in cluster.configMaps then cluster.configMaps[name].owners else [provider.self];
    cluster.(configMaps := cluster.configMaps[name := ConfigMap(owners, data, cluster.nextVersion)],
             nextVersion := cluster.nextVersion + 1)
  }

  function WriteConfigMap(c: Codec, provider: Provider, env: Env, run: Run): Step {
    var name, latest := provider.spec.configMapName, run.settings.configMap.GetOr(map[]);
    if name in run.cluster.configMaps
       && !ShouldCreateOrUpdateConfigMap(c, run.cluster.configMaps[name].data, latest, provider.spec.configMapData)
    then Go(run.(recon := run.recon.(configMapVersion := Some(run.cluster.configMaps[name].version))))
    else
      var called := Called(run, PutConfigMap);
      var written := called.(cluster := WithConfigMap(run.cluster, provider, latest));
      match env.fault(PutConfigMap)
      case Fine => Go(written.(recon := run.recon.(configMapVersion := Some(run.cluster.nextVersion))))
      case Lost => Stop(called)
      case Unacknowledged => Stop(written)
  }

  function WithSecret(cluster: Cluster, provider: Provider, name: string, s: SecretContent): Cluster {
    var owners := if name in cluster.secrets then cluster.secrets[name].owners else [provider.self];
    var kind := if name in cluster.secrets then cluster.secrets[name].kind else s.kind;
    cluster.(secrets := cluster.secrets[name := Secret(owners, kind, s.data, cluster.nextVersion)],
             nextVersion := cluster.nextVersion + 1)
  }

  /** Records the version of a written Secret, wherever its metadata lives. */
  function SetVersion(run: Run, name: string, version: nat): Run
    requires name in MetadataOf(run)
  {
    var tracked := MetadataOf(run)[name].(version := Some(version));
    if run.settings.metadata.Own? then
      run.(settings := run.settings.(metadata := Own(run.settings.metadata.secrets[name := tracked])))
    else run.(recon := run.recon.(secrets := run.recon.secrets[name := tracked]))
  }

  /** Whether a Secret differs from what is live: its whole data, or for a document its parsed
      document. Empty data comes back from the API server as nil, which is not the empty map
      of a load, but is a copy of itself. */
  predicate ShouldCreateOrUpdateSecret(c: Codec, spec: SecretSpec, name: string, latest: Data, copied: bool,
                                       existing: Option<Data>)
  {
    if existing.None? then true
    else if name != spec.target || !IsDocument(spec.secretData) then
        latest != existing.value || (latest == map[] && !copied)
    else ParsedAt(c, existing.value, spec.secretData.value) != ParsedAt(c, latest, spec.secretData.value)
  }

  /** A live Secret stands for the latest data: it is the same, or, for a document at the
      target, it has the same document at the key. */
  ghost predicate SecretReflects(c: Codec, spec: SecretSpec, name: string, latest: Data, live: Data) {
    if name != spec.target || !IsDocument(spec.secretData) then latest == live
    else ParsedAt(c, live, spec.secretData.value) == ParsedAt(c, latest, spec.secretData.value)
  }

  /** What a reader finds in a live Secret is what is due to it; a document at the target is looked
      for only at its key. */
  ghost predicate ShowsReferences(c: Codec, env: Env, secret: SecretSpec, n: string, t: Tracked, data: Data) {
    if n == secret.target && IsDocument(secret.secretData) && t.kind == SettingLoader.Opaque then
      exists values ::
        && AreValues(env, t.references, values)
        && ParsedAt(c, data, secret.secretData.value)
           == if values == map[] then None else Some(env.secretFields(values))
    else HoldsReferences(c, env, secret.secretData, n, t, data)
  }

  /** A live Secret that stands for what its references resolve to shows what is due to it. */
  lemma ReflectedShows(c: Codec, env: Env, secret: SecretSpec, n: string, t: Tracked, data: Data)
    requires Inverse(c) && (n == secret.target ==> t.kind == SettingLoader.Opaque)
    requires SecretReflects(c, secret, n, ResolvedData(c, env, secret.secretData, n, t), data)
    ensures ShowsReferences(c, env, secret, n, t, data)
  {
    hide ResolvedData;
    ResolvedHolds(c, env, secret.secretData, n, t);
    if n == secret.target && IsDocument(secret.secretData) {
      var latest := ResolvedData(c, env, secret.secretData, n, t);
      var values :| AreValues(env, t.references, values) && HoldsValues(c, env, secret.secretData, values, latest);
      assert ParsedAt(c, data, secret.secretData.value)
             == if values == map[] then None else Some(env.secretFields(values));
    }
  }

  /** Without metadata to record the version in, the original dereferences nil. */
  function WriteOneSecret(c: Codec, provider: Provider, env: Env, existing: map<string, Secret>, name: string,
                          run: Run): Step
    requires name in run.settings.secrets
  {
    if provider.spec.secret.None? || name !in MetadataOf(run) then Crash(run)
    else
      var latest := run.settings.secrets[name];
      var live := if name in existing then Some(existing[name].data) else None;
      if !ShouldCreateOrUpdateSecret(c, provider.spec.secret.value, name, latest.data, run.settings.metadata.Shared?,
                                     live)
      then Go(SetVersion(run, name, existing[name].version))
      else
        var called := Called(run, PutSecret(name));
        var written := called.(cluster := WithSecret(run.cluster, provider, name, latest));
        match env.fault(PutSecret(name))
        case Fine => Go(SetVersion(written, name, run.cluster.nextVersion))
        case Lost => Stop(called)
        case Unacknowledged => Stop(written)
  }

  /** Writes the Secrets in the order in which the map is visited. */
  function WriteSecrets(c: Codec, provider: Provider, env: Env, existing: map<string, Secret>, names: seq<string>,
                        run: Run): Step
    requires forall n :: n in names ==> n in run.settings.secrets
    decreases names
  {
    if names == [] then Go(run)
    else
      var step := WriteOneSecret(c, provider, env, existing, names[0], run);
      if !step.Go? then step else WriteSecrets(c, provider, env, existing, names[1..], step.run)
  }

  /** Deletes the live Secrets that are no longer among the keep names. */
  function ExpelSecrets(env: Env, keep: set<string>, names: seq<string>, run: Run): Step
    decreases names
  {
    if names == [] then Go(run)
    else if names[0] in keep then ExpelSecrets(env, keep, names[1..], run)
    else
      var call := DeleteSecret(names[0]);
      var called := Called(run, call);
      var deleted := called.(cluster := run.cluster.(secrets := run.cluster.secrets - {names[0]}));
      match env.fault(call)
      case Fine => ExpelSecrets(env, keep, names[1..], deleted)
      case Lost => Stop(called)
      case Unacknowledged => Stop(deleted)
  }

  /** Secrets to be written that were not looked for at first must not belong to another. */
  predicate ReadsNew(provider: Provider, env: Env, existing: map<string, Secret>, run: Run) {
    forall n :: n in run.settings.secrets && n !in existing ==>
      Reads(env, GetNewSecret(n), SecretOwners(run.cluster, n), provider)
  }

  /** The live Secrets once those to be written have been looked for too. */
  function Collected(existing: map<string, Secret>, run: Run): map<string, Secret> {
    existing + Live(run.cluster, run.settings.secrets.Keys - existing.Keys)
  }

  /** Writes the Secrets that are populated, then deletes those that are no longer wanted. */
  function SyncSecrets(c: Codec, provider: Provider, env: Env, existing: map<string, Secret>, run: Run): Step
    requires ListsKeys(env)
  {
    if !run.options.secretSettingPopulated then
      if provider.spec.secret.None? then ExpelSecrets(env, MetadataOf(run).Keys, env.order(existing.Keys), run)
        else Go(run)
    else if !ReadsNew(provider, env, existing, run) then Stop(run)
    else
      var collected := Collected(existing, run);
      var step := WriteSecrets(c, provider, env, collected, env.order(run.settings.secrets.Keys), run);
      if !step.Go? then step
      else ExpelSecrets(env, MetadataOf(step.run).Keys, env.order(collected.Keys), step.run)
  }

  // ---------------------------------------------------------------- one reconcile

  function OptionalConfigMap(cluster: Cluster, name: string): Option<ConfigMap> {
    if name in cluster.configMaps then Some(cluster.configMaps[name]) else None
  }

  function StartRun(recon: Recon, cluster: Cluster): Run {
    Run(recon, cluster, false, Settings(None, map[], Own(map[])), NEW_OPTIONS, [], false)
  }

  /** Reading what exists and preparing the state: the state to go on with or to stop with. */
  function Prepare(provider: Provider, cluster: Cluster, before: Option<Recon>, env: Env): (bool, Option<Recon>) {
    var spec := provider.spec;
    if !Reads(env, GetConfigMap, ConfigMapOwners(cluster, spec.configMapName), provider) then (false, before)
    else
      var recon := before.GetOr(INITIAL);
      if !(forall n ::
             n in NamesToCollect(spec, recon) ==> Reads(env, GetSecret(n), SecretOwners(cluster, n), provider))
      then (false, Some(recon))
      else
        var reset := Reset(spec, recon, cluster);
        if reset.hasClientManager && reset.generation == provider.generation then (true, Some(reset))
        else if env.fault(NewClientManager) != Fine then (false, Some(reset))
        else (true, Some(reset.(hasClientManager := true)))
  }

  /** Populating the settings and writing the ConfigMap. */
  function PopulateAndWrite(c: Codec, s: State, env: Env, recon: Recon): Step
    requires ValidSpec(s.provider.spec)
    requires env.keyValuesFetched < |s.store.keyValues| && env.featureFlagsFetched < |s.store.featureFlags|
  {
    var spec := s.provider.spec;
    var populated := PopulateSettings(c, s.provider, s.store, env, OptionalConfigMap(s.cluster, spec.configMapName),
                                      Live(s.cluster, NamesToCollect(spec, recon)), StartRun(recon, s.cluster));
    if populated.Go? && populated.run.options.configMapSettingPopulated
    then WriteConfigMap(c, s.provider, env, populated.run)
    else populated
  }

  datatype Reconciled = Reconciled(state: State, outcome: Outcome, trace: seq<Call>)

  /** A reconcile that panics has not set its status yet, so that the deferred patch, unless it
      is lost, leaves the phase that the reconcile started with. */
  function After(s: State, env: Env, step: Step, panicked: bool): Reconciled {
    var panics := step.Crash? || panicked;
    Reconciled(s.(cluster := step.run.cluster, recon := Some(step.run.recon),
                  running := panics && env.fault(PatchStatus) != Lost),
               if step.Crash? then Crashed else if panics then Panicked else Failed, step.run.trace)
  }

  ghost predicate ListsKeys(env: Env) {
    forall keys :: Lists(env.order(keys), keys)
  }

  /** One reconcile; the store is the one at its end. */
  ghost function Reconcile(c: Codec, s: State, env: Env): Reconciled
    requires env.keyValuesFetched < |s.store.keyValues| && env.featureFlagsFetched < |s.store.featureFlags|
    requires ListsKeys(env)
  {
    if s.running then Reconciled(s, Skipped, [])
    else if !ValidSpec(s.provider.spec) then Reconciled(s, Rejected, [])
    else
      var (ready, recon) := Prepare(s.provider, s.cluster, s.recon, env);
      if !ready || recon.None? then Reconciled(s.(recon := recon), Failed, [])
      else
        var written := PopulateAndWrite(c, s, env, recon.value);
        if !written.Go? then After(s, env, written, written.run.panicked)
        else
          var existing := Live(s.cluster, NamesToCollect(s.provider.spec, recon.value));
          var synced := SyncSecrets(c, s.provider, env, existing, written.run);
          if !synced.Go? then After(s, env, synced, false)
          else
            var (finished, outcome) := Finish(s.provider, env, synced.run);
            Reconciled(s.(cluster := synced.run.cluster, recon := Some(finished)), outcome, synced.run.trace)
  }

  // ---------------------------------------------------------------- runs

  /** What happens to the system: a reconcile during which the store moves on; edits of the
      provider, of the store, and of the cluster by others; a restart of the controller. */
  datatype Event =
    | Reconciles(env: Env, store: Store)
    | EditsSpec(annotations: map<string, string>, spec: Spec, content: Content, flags: Fields)
    | EditsAnnotations(annotations: map<string, string>)
    | EditsStore(store: Store)
    | EditsConfigMap(name: string, configMap: Option<(seq<OwnerReference>, Data)>)
    | EditsSecret(name: string, secret: Option<(seq<OwnerReference>, SecretContent)>)
    | Restarts

  /** The store only gains versions. A new spec selects anew, so it starts new versions. */
  ghost predicate Allowed(s: State, e: Event) {
    match e
    case Reconciles(env, store) => ValidEnv(env, s.store, store)
    case EditsStore(store) =>
      s.store.keyValues <= store.keyValues && s.store.featureFlags <= store.featureFlags
      && SentinelsAdvance(store.keyValues)
    case EditsSpec(_, _, content, _) => SentinelsAdvance(s.store.keyValues + [content])
    case _ => true
  }

  ghost function Next(c: Codec, s: State, e: Event): State
    requires Allowed(s, e)
  {
    match e
    case Reconciles(env, store) => Reconcile(c, s.(store := store), env).state
    case EditsSpec(annotations, spec, content, flags) =>
      s.(provider := s.provider.(generation := s.provider.generation + 1, annotations := annotations, spec := spec),
         store := Store(s.store.keyValues + [content], s.store.featureFlags + [flags]))
    case EditsAnnotations(annotations) => s.(provider := s.provider.(annotations := annotations))
    case EditsStore(store) => s.(store := store)
    case EditsConfigMap(name, configMap) =>
      s.(cluster := s.cluster.(
           configMaps := if configMap.None? then s.cluster.configMaps - {name}
                         else s.cluster.configMaps[name :=
                                                     ConfigMap(configMap.value.0, configMap.value.1,
                                                               s.cluster.nextVersion)],
           nextVersion := s.cluster.nextVersion + 1))
    case EditsSecret(name, secret) =>
      s.(cluster := s.cluster.(
           secrets := if secret.None? then s.cluster.secrets - {name}
                      else s.cluster.secrets[name :=
                                               Secret(secret.value.0, secret.value.1.kind, secret.value.1.data,
                                                      s.cluster.nextVersion)],
           nextVersion := s.cluster.nextVersion + 1))
    case Restarts => s.(recon := None)
  }

  /** A provider the controller has not seen yet, in any cluster. */
  ghost predicate Starts(s: State) {
    && s.recon.None? && !s.running && s.provider.generation > 0
    && s.store.keyValues != [] && s.store.featureFlags != []
    && SentinelsAdvance(s.store.keyValues) && VersionsBounded(s.cluster)
  }

  ghost predicate VersionsBounded(cluster: Cluster) {
    && (forall n :: n in cluster.configMaps ==> cluster.configMaps[n].version < cluster.nextVersion)
    && (forall n :: n in cluster.secrets ==> cluster.secrets[n].version < cluster.nextVersion)
  }

  /** s is reached from a start by allowed events. */
  ghost predicate Reaches(c: Codec, start: State, events: seq<Event>, s: State)
    decreases events
  {
    if events == [] then Starts(start) && s == start
    else
      var (earlier, last) := (events[..|events| - 1], events[|events| - 1]);
      exists previous :: Reaches(c, start, earlier, previous) && Allowed(previous, last) && s == Next(c, previous, last)
  }
}
