/** Sentinels: a refresh reads them before it fetches the key-values and loses nothing, a full
    load reads them afterwards and can lose an update. */
module Sentinels {
  import opened Wrappers
  import opened Clock
  import opened TypedSetting
  import opened ReconcileTypes
  import opened Processor
  import opened Reconciler
  import opened NoLostUpdate
  import opened SecretSync
  import opened SecretGuarantees
  import opened Convergence
  import opened Staleness

  /** The sentinels that a full load will record. */
  function LoadedSentinels(spec: Spec, store: Store, env: Env): Option<nat> {
    if KeyValueRefreshEnabled(spec) && spec.monitoring then Some(SentinelAt(store, env.sentinelRead)) else None
  }

  lemma DueSecretKeepsSentinels(c: Codec, spec: Spec, env: Env, existing: map<string, Secret>, run: Run)
    ensures forall due: Time, o: RefreshOptions :: o.updatedSentinelETags == run.options.updatedSentinelETags ==>
              DueSecretRefresh(c, spec, env, existing, due,
                               Called(WithOptions(run, o), ResolveSecretReferences)).run.options.updatedSentinelETags
              == run.options.updatedSentinelETags
  {
    hide RefreshedSecrets, WritesIntoNil;
  }

  lemma FullPhasesKeepSentinels(c: Codec, provider: Provider, store: Store, env: Env, data: Data,
                                existing: map<string, Secret>, run: Run)
    requires ValidSpec(provider.spec) && run.shouldReconcile
    requires env.keyValuesFetched < |store.keyValues| && env.featureFlagsFetched < |store.featureFlags|
    ensures FeatureFlagRefresh(c, provider, store, env, data, run).run.options.updatedSentinelETags
            == run.options.updatedSentinelETags
    ensures KeyValueRefresh(c, provider, store, env, data, run).run.options.updatedSentinelETags
            == run.options.updatedSentinelETags
    ensures SecretReferenceRefresh(c, provider, env, existing, run).run.options.updatedSentinelETags
            == run.options.updatedSentinelETags
  {
    hide DueFeatureFlagRefresh, DueKeyValueRefresh, DueSecretRefresh;
    DueSecretKeepsSentinels(c, provider.spec, env, existing, run);
  }

  lemma PopulatedSentinels(c: Codec, provider: Provider, store: Store, env: Env, configMap: Option<ConfigMap>,
                           existing: map<string, Secret>, run: Run)
    requires ValidSpec(provider.spec)
    requires env.keyValuesFetched < |store.keyValues| && env.featureFlagsFetched < |store.featureFlags|
    requires ShouldReconcile(provider, run.recon, configMap, existing)
    ensures var step := PopulateSettings(c, provider, store, env, configMap, existing, run);
            step.Go? ==> step.run.options.updatedSentinelETags == LoadedSentinels(provider.spec, store, env)
  {
    hide FeatureFlagRefresh, KeyValueRefresh, SecretReferenceRefresh, ShouldReconcile, LoadedSettings, Typed, Loadable;
    var data := if configMap.Some? then configMap.value.data else map[];
    var first := FullReconciliation(c, provider, store, env, run.(shouldReconcile := true));
    if first.Go? {
      FullPhasesKeepSentinels(c, provider, store, env, data, existing, first.run);
      FeatureFlagsAdvance(c, provider, store, env, data, first.run);
      var second := FeatureFlagRefresh(c, provider, store, env, data, first.run);
      if second.Go? {
        FullPhasesKeepSentinels(c, provider, store, env, data, existing, second.run);
        KeyValuesAdvance(c, provider, store, env, data, second.run);
        var third := KeyValueRefresh(c, provider, store, env, data, second.run);
        if third.Go? {
          FullPhasesKeepSentinels(c, provider, store, env, data, existing, third.run);
        }
      }
    }
  }

  lemma WrittenSentinels(c: Codec, s: State, env: Env, start: Store, recon: Recon)
    requires Prepared(c, false, s, env, start, recon)
    ensures var step := PopulateAndWrite(c, s, env, recon);
            step.Go? && step.run.shouldReconcile ==>
              step.run.options.updatedSentinelETags == LoadedSentinels(s.provider.spec, s.store, env)
  {
    hide PopulateSettings, ShouldReconcile, ShouldCreateOrUpdateConfigMap, Invariant, LoadedSentinels;
    var existing := Live(s.cluster, NamesToCollect(s.provider.spec, recon));
    var configMap := OptionalConfigMap(s.cluster, s.provider.spec.configMapName);
    var v, w := PopulateFacts(c, false, s, env, start, recon, existing);
    if ShouldReconcile(s.provider, recon, configMap, existing) {
      PopulatedSentinels(c, s.provider, s.store, env, configMap, existing, StartRun(recon, s.cluster));
    }
  }

  /** A full load that is done records the sentinels as they were read, after the fetch. */
  lemma FullLoadRecordsSentinels(c: Codec, s: State, env: Env, store: Store)
    requires Inverse(c) && Invariant(c, false, s) && ValidEnv(env, s.store, store)
    ensures var r := Reconcile(c, s.(store := store), env);
            !InStep(s) && r.outcome.Done? ==>
              r.state.recon.Some? && r.state.recon.value.sentinelETags == LoadedSentinels(s.provider.spec, store, env)
  {
    hide PopulateAndWrite, SyncSecrets, Prepare, Invariant, Prepared, InStep, KeepsCore, ShouldReconcile,
         LoadedSentinels, Written;
    var (ready, recon) := Prepare(s.provider, s.cluster, s.recon, env);
    if ValidSpec(s.provider.spec) && ready {
      MiddleFacts(c, s, env, store, recon);
      PreparedDrift(c, s, env, recon);
      var prepared := s.(store := store, recon := recon);
      var v, w := PopulateAndWriteFacts(c, false, prepared, env, s.store, recon.value);
      WrittenSentinels(c, prepared, env, s.store, recon.value);
      var written := PopulateAndWrite(c, s.(store := store), env, recon.value);
      if written.Go? {
        var existing := Live(s.cluster, NamesToCollect(s.provider.spec, recon.value));
        var synced := SyncSecrets(c, s.provider, env, existing, written.run);
        SyncSecretsKeepsCore(c, s.provider, env, existing, written.run);
        KeepsCoreOptions(written.run, synced.run);
        KeepsCoreMode(written.run, synced.run);
      }
    }
  }

  lemma KeepsCoreMode(before: Run, after: Run)
    requires KeepsCore(before, after)
    ensures after.shouldReconcile == before.shouldReconcile
  {
  }

  /** A full load with monitored sentinels leaves sentinels recorded that the ConfigMap covers
      exactly when they did not move between the fetch of the key-values and their reading. */
  lemma FullLoadLosesExactly(c: Codec, s: State, env: Env, store: Store)
    requires Inverse(c) && Invariant(c, false, s) && ValidEnv(env, s.store, store)
    requires KeyValueRefreshEnabled(s.provider.spec) && s.provider.spec.monitoring
    ensures var r := Reconcile(c, s.(store := store), env);
            !InStep(s) && r.outcome.Done? ==>
              && r.state.recon.Some?
              && StandsFor(c, s.provider.spec, r.state.cluster, store, env.keyValuesFetched, env.featureFlagsFetched)
              && (SentinelAtMost(r.state.recon.value.sentinelETags, s.provider.spec, store, env.keyValuesFetched)
                  <==> SentinelsStill(env, store))
  {
    hide Reconcile, Invariant, InStep, StandsFor;
    FullLoadRecordsSentinels(c, s, env, store);
    var v, w := DoneExamines(c, false, s, env, store);
    assert SentinelAt(store, env.keyValuesFetched) <= SentinelAt(store, env.sentinelRead);
  }

  /** A reconcile that does not load in full loses nothing: the sentinels that it records, the
      ConfigMap covers, if it covered those recorded before. */
  lemma RefreshLosesNothing(c: Codec, s: State, env: Env, store: Store)
    requires Inverse(c) && Invariant(c, true, s) && ValidEnv(env, s.store, store) && InStep(s)
    ensures var r := Reconcile(c, s.(store := store), env);
            r.outcome.Done? ==>
              && r.state.recon.Some?
              && exists v: nat, w: nat :: StandsFor(c, s.provider.spec, r.state.cluster, store, v, w)
                                       && SentinelAtMost(r.state.recon.value.sentinelETags, s.provider.spec, store, v)
  {
    hide Reconcile, Invariant, InStep, StandsFor, SentinelAtMost;
    var v, w := DoneExamines(c, true, s, env, store);
  }

  /** A change that is announced while a full load is under way goes unseen: the sentinels are
      recorded as they are now, so that their check finds no change, while the ConfigMap does
      not stand for the key-values of now. */
  lemma MovedSentinelLosesUpdate(c: Codec, s: State, env: Env, store: Store)
    requires Inverse(c) && Invariant(c, false, s) && ValidEnv(env, s.store, store) && !InStep(s)
    requires KeyValueRefreshEnabled(s.provider.spec) && s.provider.spec.monitoring
             && env.sentinelRead == |store.keyValues| - 1
    requires !SentinelsStill(env, store)
    requires !Reflects(c, FullData(c, s.provider.spec, store, env.keyValuesFetched, env.featureFlagsFetched),
                       FullData(c, s.provider.spec, store, env.sentinelRead, env.featureFlagsFetched),
                         s.provider.spec.configMapData)
    ensures var r := Reconcile(c, s.(store := store), env);
            r.outcome.Done? ==>
              && r.state.recon.Some?
              && r.state.recon.value.sentinelETags == Some(SentinelAt(store, |store.keyValues| - 1))
              && !StandsFor(c, s.provider.spec, r.state.cluster, store, |store.keyValues| - 1, env.featureFlagsFetched)
  {
    hide Reconcile, Invariant, InStep, FullData, Reflects;
    FullLoadRecordsSentinels(c, s, env, store);
    var v, w := DoneExamines(c, false, s, env, store);
    var r := Reconcile(c, s.(store := store), env);
    var spec := s.provider.spec;
    if r.outcome.Done? && StandsFor(c, spec, r.state.cluster, store, env.sentinelRead, env.featureFlagsFetched) {
      StandsForOne(c, spec, r.state.cluster.configMaps[spec.configMapName].data, store, env.keyValuesFetched,
                   env.sentinelRead,
                   env.featureFlagsFetched);
    }
  }

  lemma StandsForOne(c: Codec, spec: Spec, live: Data, store: Store, v: nat, v': nat, w: nat)
    requires Inverse(c) && v < |store.keyValues| && v' < |store.keyValues| && w < |store.featureFlags|
    requires Reflects(c, live, FullData(c, spec, store, v, w), spec.configMapData)
    requires Reflects(c, live, FullData(c, spec, store, v', w), spec.configMapData)
    ensures Reflects(c, FullData(c, spec, store, v, w), FullData(c, spec, store, v', w), spec.configMapData)
  {
  }
}
