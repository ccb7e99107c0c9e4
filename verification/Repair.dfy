/** A reconcile that finds drift loads in full: what it then leaves in the ConfigMap and in the
    Secrets, and what drift it does not repair. */
module Repair {
  import opened Wrappers
  import opened TypedSetting
  import opened ReconcileTypes
  import opened Processor
  import opened Reconciler
  import opened NoLostUpdate
  import opened SecretSync
  import opened SecretGuarantees
  import opened Deadlines
  import opened Convergence
  import opened SecretRefresh
  import opened Staleness
  import SettingLoader

  function DataOf(cluster: Cluster, name: string): Option<Data> {
    if name in cluster.configMaps then Some(cluster.configMaps[name].data) else None
  }

  lemma FullLoadWrites(c: Codec, s: State, env: Env, start: Store, recon: Recon)
    requires Prepared(c, false, s, env, start, recon)
    ensures var name, step := s.provider.spec.configMapName, PopulateAndWrite(c, s, env, recon);
            step.Go? && step.run.shouldReconcile ==>
              DataOf(step.run.cluster, name)
              == Some(WrittenData(c, DataOf(s.cluster, name),
                                  FullData(c, s.provider.spec, s.store, env.keyValuesFetched, env.featureFlagsFetched),
                                  s.provider.spec.configMapData))
  {
    hide PopulateSettings, FullData, ShouldCreateOrUpdateConfigMap, Invariant;
    var v, w := PopulateFacts(c, false, s, env, start, recon, Live(s.cluster, NamesToCollect(s.provider.spec, recon)));
  }

  lemma FullDataHolds(c: Codec, spec: Spec, store: Store, v: nat, w: nat)
    requires Inverse(c) && v < |store.keyValues| && w < |store.featureFlags|
    ensures Holds(c, store.keyValues[v].settings,
                  if spec.featureFlag.Some? then Some(store.featureFlags[w]) else None, spec.configMapData,
                  FullData(c, spec, store, v, w))
  {
    hide Typed, Holds;
    TypedHolds(c, store.keyValues[v].settings, Flags(spec, store, w), spec.configMapData);
  }

  /** A reconcile that finds any drift and is done leaves exactly the data of a full load of the
      fetched versions, or the old data where writing it was left out. */
  lemma FullLoadWritesExactly(c: Codec, s: State, env: Env, store: Store)
    requires Inverse(c) && Invariant(c, false, s) && ValidEnv(env, s.store, store)
    ensures !InStep(s) && Reconcile(c, s.(store := store), env).outcome.Done? ==>
              var spec, r := s.provider.spec, Reconcile(c, s.(store := store), env).state;
              DataOf(r.cluster, spec.configMapName)
              == Some(WrittenData(c, DataOf(s.cluster, spec.configMapName),
                                  FullData(c, spec, store, env.keyValuesFetched, env.featureFlagsFetched),
                                    spec.configMapData))
    ensures Holds(c, store.keyValues[env.keyValuesFetched].settings,
                  if s.provider.spec.featureFlag.Some? then Some(store.featureFlags[env.featureFlagsFetched]) else None,
                  s.provider.spec.configMapData,
                  FullData(c, s.provider.spec, store, env.keyValuesFetched, env.featureFlagsFetched))
  {
    FullDataHolds(c, s.provider.spec, store, env.keyValuesFetched, env.featureFlagsFetched);
    hide PopulateAndWrite, SyncSecrets, Prepare, Invariant, Prepared, InStep, FullData, WrittenData, ShouldReconcile;
    var (ready, recon) := Prepare(s.provider, s.cluster, s.recon, env);
    if ValidSpec(s.provider.spec) && ready {
      MiddleFacts(c, s, env, store, recon);
      PreparedDrift(c, s, env, recon);
      var prepared := s.(store := store, recon := recon);
      var v, w := PopulateAndWriteFacts(c, false, prepared, env, s.store, recon.value);
      FullLoadWrites(c, prepared, env, s.store, recon.value);
      var written := PopulateAndWrite(c, s.(store := store), env, recon.value);
      if written.Go? {
        var existing := Live(s.cluster, NamesToCollect(s.provider.spec, recon.value));
        SyncSecretsKeepsCore(c, s.provider, env, existing, written.run);
        KeepsCoreConfigMaps(written.run, SyncSecrets(c, s.provider, env, existing, written.run).run);
      }
    }
  }

  /** Whether that data is the full load's is decided by what was live before. */
  lemma DataIsRepairedExactly(c: Codec, s: State, env: Env, store: Store)
    requires Inverse(c) && Invariant(c, false, s) && ValidEnv(env, s.store, store)
    ensures !InStep(s) && Reconcile(c, s.(store := store), env).outcome.Done? ==>
              var spec, r := s.provider.spec, Reconcile(c, s.(store := store), env).state;
              var before, latest := DataOf(s.cluster, spec.configMapName),
                                    FullData(c, spec, store, env.keyValuesFetched, env.featureFlagsFetched);
              DataOf(r.cluster, spec.configMapName) == Some(latest) <==>
                || !IsDocument(spec.configMapData) || before.None? || before.value == latest
                || spec.configMapData.value.key !in before.value
                || ParsedAt(c, before.value, spec.configMapData.value) != ParsedAt(c, latest, spec.configMapData.value)
  {
    hide Reconcile, Invariant, InStep, FullData, WrittenData, ParsedAt;
    FullLoadWritesExactly(c, s, env, store);
    WrittenIsLatestExactly(c, DataOf(s.cluster, s.provider.spec.configMapName),
                           FullData(c, s.provider.spec, store, env.keyValuesFetched, env.featureFlagsFetched),
                           s.provider.spec.configMapData);
  }

  /** Drift in another key of a document is not repaired, even by a full load that is done. */
  lemma OtherKeysAreNotRepaired(c: Codec, s: State, env: Env, store: Store, extra: string, text: string)
    requires Inverse(c) && Invariant(c, false, s) && ValidEnv(env, s.store, store)
             && IsDocument(s.provider.spec.configMapData)
    requires !InStep(s)
    requires var latest := FullData(c, s.provider.spec, store, env.keyValuesFetched, env.featureFlagsFetched);
             && s.provider.spec.configMapData.value.key in latest && extra !in latest
             && DataOf(s.cluster, s.provider.spec.configMapName) == Some(latest[extra := text])
    ensures Reconcile(c, s.(store := store), env).outcome.Done? ==>
              DataOf(Reconcile(c, s.(store := store), env).state.cluster, s.provider.spec.configMapName)
              == DataOf(s.cluster, s.provider.spec.configMapName)
  {
    hide Reconcile, Invariant, InStep, FullData;
    FullLoadWritesExactly(c, s, env, store);
    ExtraKeyStays(c, FullData(c, s.provider.spec, store, env.keyValuesFetched, env.featureFlagsFetched),
                  s.provider.spec.configMapData, extra, text);
  }

  /** The Secrets tracked are the target and those with references, and Secret n, if tracked, is
      live with the data that is due to it. */
  ghost predicate AsSelected(c: Codec, spec: Spec, env: Env, references: map<string, SettingLoader.TargetSecret>,
                             after: Recon, cluster: Cluster, n: string)
    requires spec.secret.Some?
  {
    && TracksReferences(spec.secret.value.target, references, after.secrets)
    && (n in after.secrets ==>
          && n in cluster.secrets && after.secrets[n].version == Some(cluster.secrets[n].version)
          && ShowsReferences(c, env, spec.secret.value, n, after.secrets[n], cluster.secrets[n].data))
  }

  /** A reconcile that finds any drift and is done leaves the ConfigMap standing for a full load
      of exactly the fetched versions, and of the target, the selected and the tracked Secrets
      exactly the target and the selected ones live. */
  lemma DriftIsRepaired(c: Codec, s: State, env: Env, store: Store, n: string)
    requires Inverse(c) && Invariant(c, false, s) && ValidEnv(env, s.store, store)
    ensures !InStep(s) && Reconcile(c, s.(store := store), env).outcome.Done? ==>
              var spec, r := s.provider.spec, Reconcile(c, s.(store := store), env).state;
              && StandsFor(c, spec, r.cluster, store, env.keyValuesFetched, env.featureFlagsFetched)
              && r.recon.Some?
              && (spec.secret.Some? ==>
                    var references := store.keyValues[env.keyValuesFetched].references;
                    && AsSelected(c, spec, env, references, r.recon.value, r.cluster, n)
                    && (n in r.cluster.secrets && n in NamesToCollect(spec, s.recon.GetOr(INITIAL)) ==>
                          n == spec.secret.value.target || n in references))
  {
    hide Reconcile, Invariant, InStep, StandsFor, Prepare, Populated, LiveAsPopulated, SecretReflects,
         ResolvedData, IsRefreshed, IsExamined;
    var v, w := DoneExamines(c, false, s, env, store);
    var spec := s.provider.spec;
    if !InStep(s) && Reconcile(c, s.(store := store), env).outcome.Done? && spec.secret.Some? {
      DoneMeansValid(c, s, env, store);
      DonePopulates(c, s, env, store);
      SecretsAreConserved(c, s, env, store);
      var run, r := Populated(c, s, env, store), Reconcile(c, s.(store := store), env).state;
      var recon := Prepare(s.provider, s.cluster, s.recon, env).1.value;
      FullIsLoaded(c, s.(store := store, recon := Some(recon)), env, recon, run);
      LoadedAsSelected(c, s.(store := store, recon := Some(recon)), env, run, r.recon.value, r.cluster,
                       NamesToCollect(spec, s.recon.GetOr(INITIAL)), n);
    }
  }

  lemma FullIsLoaded(c: Codec, s: State, env: Env, recon: Recon, run: Run)
    requires env.keyValuesFetched < |s.store.keyValues| && Sourced(c, s, env, recon, run)
    requires run.shouldReconcile && s.provider.spec.secret.Some?
    ensures IsLoaded(c, s, env, run)
  {
    hide Resolved, SelectedMetadata, IsRefreshed;
  }

  lemma SelectedNames(spec: Spec, references: map<string, SettingLoader.TargetSecret>)
    requires spec.secret.Some?
    ensures forall n :: n in SelectedMetadata(spec, references) <==> n == spec.secret.value.target || n in references
  {}

  lemma LoadedAsSelected(c: Codec, s: State, env: Env, run: Run, after: Recon, cluster: Cluster,
                         names: set<string>, n: string)
    requires Inverse(c) && env.keyValuesFetched < |s.store.keyValues| && s.provider.spec.secret.Some?
    requires IsLoaded(c, s, env, run) && after.secrets.Keys == run.settings.secrets.Keys
    requires SecretsTracked(names, after.secrets, cluster)
    requires forall m :: m in run.settings.secrets ==> LiveAsPopulated(c, s.provider.spec, run, after, cluster, m)
    ensures AsSelected(c, s.provider.spec, env, s.store.keyValues[env.keyValuesFetched].references, after, cluster, n)
  {
    hide SecretReflects, ResolvedData, SelectedMetadata, ShowsReferences, TracksReferences;
    var spec, references := s.provider.spec, s.store.keyValues[env.keyValuesFetched].references;
    var selected := SelectedMetadata(spec, references);
    SelectedAreTracked(spec, references);
    assert after.secrets.Keys == selected.Keys;
    forall m | m in selected
      ensures after.secrets[m].kind == selected[m].kind && after.secrets[m].references == selected[m].references
    {
      assert LiveAsPopulated(c, spec, run, after, cluster, m);
    }
    AlikeAreTracked(spec.secret.value.target, references, selected, after.secrets);
    if n in after.secrets {
      assert LiveAsPopulated(c, spec, run, after, cluster, n);
      SameResolved(c, env, spec.secret.value.secretData, n, selected[n], after.secrets[n]);
      TargetIsOpaque(spec.secret.value.target, references, after.secrets);
      ReflectedShows(c, env, spec.secret.value, n, after.secrets[n], cluster.secrets[n].data);
    }
  }

  lemma AlikeAreTracked(target: string, references: map<string, SettingLoader.TargetSecret>, a: map<string, Tracked>,
                        b: map<string, Tracked>)
    requires TracksReferences(target, references, a) && NoLostUpdate.SameReferences(a, b)
    ensures TracksReferences(target, references, b)
  {
  }

  lemma TargetIsOpaque(target: string, references: map<string, SettingLoader.TargetSecret>,
                       tracked: map<string, Tracked>)
    requires TracksReferences(target, references, tracked)
    ensures target in tracked && tracked[target].kind == SettingLoader.Opaque
  {
  }

  lemma SameResolved(c: Codec, env: Env, options: Option<DataOptions>, n: string, a: Tracked, b: Tracked)
    requires a.kind == b.kind && a.references == b.references
    ensures ResolvedData(c, env, options, n, a) == ResolvedData(c, env, options, n, b)
  {
  }
}
