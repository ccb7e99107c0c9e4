/** What a reconcile sets out to write, told beforehand from what is due and what has changed, and
    exactly when it is done. */
module Plans {
  import opened Clock
  import opened Wrappers
  import opened TypedSetting
  import opened ReconcileTypes
  import opened Processor
  import opened Reconciler
  import opened NoLostUpdate
  import opened SecretSync
  import opened SecretGuarantees
  import opened Deadlines
  import opened Convergence
  import opened Stopping
  import opened Failures
  import opened SecretCalls
  import opened RecordedVersions
  import opened StoppedLoads

  // ---------------------------------------------------------------- the plan

  predicate FlagsReload(spec: Spec, recon: Recon, env: Env) {
    FeatureFlagsDue(spec, recon, env) && PagesChanged(recon.featureFlagETags, env.featureFlagsChecked)
  }

  predicate KeyValuesReload(spec: Spec, store: Store, recon: Recon, env: Env) {
    KeyValuesDue(spec, recon, env) && KeyValuesChanged(spec, store, recon, env)
  }

  /** The data of a refresh of flags and key-values, each only if it is due and has changed. */
  function RefreshedData(c: Codec, s: State, recon: Recon, env: Env): Option<Data>
    requires ValidSpec(s.provider.spec)
    requires env.keyValuesFetched < |s.store.keyValues| && env.featureFlagsFetched < |s.store.featureFlags|
  {
    var spec, live := s.provider.spec, LiveData(s.cluster, s.provider.spec.configMapName);
    var flags := if FlagsReload(spec, recon, env)
                 then RefreshFeatureFlags(c, s.store.featureFlags[env.featureFlagsFetched], live,
                                          spec.configMapData.value)
                 else None;
    if KeyValuesReload(spec, s.store, recon, env)
    then RefreshKeyValues(c, s.store.keyValues[env.keyValuesFetched].settings, flags.GetOr(live),
                          spec.featureFlag.Some?, spec.configMapData)
    else flags
  }

  /** The data for the ConfigMap, if there is any to write. */
  ghost function PlannedData(c: Codec, s: State, recon: Recon, env: Env, full: bool): Option<Data>
    requires ValidSpec(s.provider.spec)
    requires env.keyValuesFetched < |s.store.keyValues| && env.featureFlagsFetched < |s.store.featureFlags|
  {
    if full then Some(FullData(c, s.provider.spec, s.store, env.keyValuesFetched, env.featureFlagsFetched))
    else RefreshedData(c, s, recon, env)
  }

  /** Whether the Secrets come with newly loaded key-values. */
  predicate SecretsLoad(s: State, recon: Recon, env: Env, full: bool) {
    full || KeyValuesReload(s.provider.spec, s.store, recon, env)
  }

  /** The Secrets to be synced, if any: those of a load, or else those that a due refresh makes
      of the live ones. */
  function PlannedSecrets(c: Codec, s: State, recon: Recon, env: Env, full: bool): Option<map<string, SecretContent>>
    requires env.keyValuesFetched < |s.store.keyValues|
  {
    var spec := s.provider.spec;
    if spec.secret.None? then None
    else if SecretsLoad(s, recon, env, full)
    then Some(LoadedSecrets(c, spec, env, s.store.keyValues[env.keyValuesFetched]))
    else if SecretRefreshEnabled(spec) && env.now > recon.nextSecret
    then Some(RefreshedSecrets(c, spec, env, recon.secrets, Existing(s, recon)))
    else None
  }

  // ---------------------------------------------------------------- phase by phase

  lemma FlagsPlan(c: Codec, provider: Provider, store: Store, env: Env, data: Data, run: Run)
    requires ValidSpec(provider.spec) && env.featureFlagsFetched < |store.featureFlags| && !run.shouldReconcile
    requires !run.options.configMapSettingPopulated && run.settings.configMap.None?
    ensures var spec, step := provider.spec, FeatureFlagRefresh(c, provider, store, env, data, run);
            step.Go? ==>
              && step.run.options.secretSettingPopulated == run.options.secretSettingPopulated
              && step.run.options.configMapSettingPopulated == FlagsReload(spec, run.recon, env)
              && step.run.settings.configMap.Some? == FlagsReload(spec, run.recon, env)
              && (FlagsReload(spec, run.recon, env) ==>
                    step.run.settings.configMap
                    == RefreshFeatureFlags(c, store.featureFlags[env.featureFlagsFetched], data,
                                           spec.configMapData.value))
  {
    hide RefreshFeatureFlags;
  }

  lemma ReloadPlan(c: Codec, spec: Spec, store: Store, env: Env, existing: Data, due: Time, run: Run)
    requires ValidSpec(spec) && env.keyValuesFetched < |store.keyValues|
    ensures var content := store.keyValues[env.keyValuesFetched];
            var step := ReloadKeyValues(c, spec, store, env, existing, due, run);
            step.Go? ==>
              && step.run.options.configMapSettingPopulated
              && step.run.options.secretSettingPopulated == (run.options.secretSettingPopulated || spec.secret.Some?)
              && step.run.settings.configMap
                 == RefreshKeyValues(c, content.settings, existing, spec.featureFlag.Some?, spec.configMapData)
              && step.run.settings.secrets == LoadedSecrets(c, spec, env, content) && step.run.settings.metadata.Own?
              && step.run.shouldReconcile == run.shouldReconcile && step.run.recon == run.recon.(nextKeyValue := due)
  {
    hide RefreshKeyValues, Resolved, SelectedMetadata, Loadable;
  }

  lemma DueKeyValuesPlan(c: Codec, spec: Spec, store: Store, env: Env, existing: Data, due: Time, run: Run)
    requires ValidSpec(spec) && env.keyValuesFetched < |store.keyValues|
    requires !run.options.sentinelChanged && !run.options.keyValuePageETagsChanged
    ensures var content := store.keyValues[env.keyValuesFetched];
            var step := DueKeyValueRefresh(c, spec, store, env, existing, due, run);
            step.Go? ==>
              if KeyValuesChanged(spec, store, run.recon, env) then
                && step.run.options.configMapSettingPopulated
                && step.run.options.secretSettingPopulated == (run.options.secretSettingPopulated || spec.secret.Some?)
                && step.run.settings.configMap
                   == RefreshKeyValues(c, content.settings, run.settings.configMap.GetOr(existing),
                                       spec.featureFlag.Some?, spec.configMapData)
                && step.run.settings.secrets == LoadedSecrets(c, spec, env, content) && step.run.settings.metadata.Own?
              else
                && step.run.options.configMapSettingPopulated == run.options.configMapSettingPopulated
                && step.run.options.secretSettingPopulated == run.options.secretSettingPopulated
                && step.run.settings == run.settings
  {
    hide ReloadKeyValues, RefreshKeyValues, LoadedSecrets;
    var called := Called(run, KeyValueCheck(spec));
    var checked := CheckedOptions(spec, store, env, run.recon, run.options);
    var reload := Called(WithOptions(called, checked), RefreshKeyValueSettings);
    assert checked.sentinelChanged || checked.keyValuePageETagsChanged
      <==> KeyValuesChanged(spec, store, run.recon, env);
    ReloadPlan(c, spec, store, env, run.settings.configMap.GetOr(existing), due, reload);
  }

  lemma KeyValuesPlan(c: Codec, provider: Provider, store: Store, env: Env, data: Data, run: Run)
    requires ValidSpec(provider.spec) && env.keyValuesFetched < |store.keyValues| && !run.shouldReconcile
    requires !run.options.sentinelChanged && !run.options.keyValuePageETagsChanged
    ensures var spec, content := provider.spec, store.keyValues[env.keyValuesFetched];
            var step := KeyValueRefresh(c, provider, store, env, data, run);
            step.Go? ==>
              if KeyValuesReload(spec, store, run.recon, env) then
                && step.run.options.configMapSettingPopulated
                && step.run.options.secretSettingPopulated == (run.options.secretSettingPopulated || spec.secret.Some?)
                && step.run.settings.configMap
                   == RefreshKeyValues(c, content.settings, run.settings.configMap.GetOr(data), spec.featureFlag.Some?,
                                       spec.configMapData)
                && step.run.settings.secrets == LoadedSecrets(c, spec, env, content) && step.run.settings.metadata.Own?
              else
                && step.run.options.configMapSettingPopulated == run.options.configMapSettingPopulated
                && step.run.options.secretSettingPopulated == run.options.secretSettingPopulated
                && step.run.settings == run.settings
  {
    hide DueKeyValueRefresh, RefreshKeyValues, LoadedSecrets, KeyValuesChanged;
    var spec := provider.spec;
    if KeyValuesDue(spec, run.recon, env) {
      var enabled := WithOptions(run, run.options.(keyValueRefreshEnabled := true));
      assert enabled.settings == run.settings && enabled.recon == run.recon;
      DueKeyValuesPlan(c, spec, store, env, data, DeadlineAfter(env, spec.keyValueRefresh), enabled);
    }
  }

  lemma DueSecretsPlan(c: Codec, spec: Spec, env: Env, existing: map<string, Secret>, due: Time, run: Run)
    ensures var step := DueSecretRefresh(c, spec, env, existing, due, run);
            step.Go? ==>
              && step.run.options == run.options.(secretSettingPopulated := true)
              && step.run.settings
                 == run.settings.(secrets := RefreshedSecrets(c, spec, env, run.recon.secrets, existing),
                                  metadata := Shared)
  {
    hide RefreshedSecrets, WritesIntoNil;
  }

  lemma SecretsPlan(c: Codec, provider: Provider, env: Env, existing: map<string, Secret>, run: Run)
    ensures var spec, step := provider.spec, SecretReferenceRefresh(c, provider, env, existing, run);
            step.Go? ==>
              && step.run.options.configMapSettingPopulated == run.options.configMapSettingPopulated
              && if SecretRefreshEnabled(spec) && env.now > run.recon.nextSecret
                    && !run.options.secretSettingPopulated then
                && step.run.options.secretSettingPopulated
                && step.run.settings
                   == run.settings.(secrets := RefreshedSecrets(c, spec, env, run.recon.secrets, existing),
                                    metadata := Shared)
              else
                && step.run.options.secretSettingPopulated == run.options.secretSettingPopulated
                && step.run.settings == run.settings
  {
    hide SecretReferenceRefresh, DueSecretRefresh, RefreshedSecrets, WithOptions, NextSecret, Called, MarkedOptions,
         NeededOptions;
    var spec := provider.spec;
    SecretRefreshCases(c, provider, env, existing, run);
    MarkedParts(run.options);
    if SecretRefreshEnabled(spec) {
      var due, needed := DeadlineAfter(env, spec.secret.value.refresh), WithOptions(run, NeededOptions(run.options));
      var called := Called(needed, ResolveSecretReferences);
      SecretParts(run, MarkedOptions(run.options), due, ResolveSecretReferences);
      SecretParts(run, NeededOptions(run.options), due, ResolveSecretReferences);
      SecretParts(needed, NeededOptions(run.options), due, ResolveSecretReferences);
      DueSecretsPlan(c, spec, env, existing, due, called);
    } else {
      SecretParts(run, run.options, 0, ResolveSecretReferences);
    }
  }

  lemma MarkedParts(o: RefreshOptions)
    ensures forall m :: m in {MarkedOptions(o), NeededOptions(o)} ==>
              && m.secretSettingPopulated == o.secretSettingPopulated
              && m.configMapSettingPopulated == o.configMapSettingPopulated
  {
  }

  lemma SecretParts(run: Run, o: RefreshOptions, time: Time, call: Call)
    ensures WithOptions(run, o).options == o
            && NextSecret(run, time).options == Called(run, call).options == run.options
    ensures forall after: Run :: after in {WithOptions(run, o), NextSecret(run, time), Called(run, call)} ==>
              after.settings == run.settings && after.recon.secrets == run.recon.secrets
  {
  }

  lemma FullPlan(c: Codec, provider: Provider, store: Store, env: Env, data: Data, existing: map<string, Secret>,
                 run: Run)
    requires ValidSpec(provider.spec) && run.shouldReconcile
    requires env.featureFlagsFetched < |store.featureFlags| && env.keyValuesFetched < |store.keyValues|
    requires run.options.secretSettingPopulated == provider.spec.secret.Some?
    ensures var second := FeatureFlagRefresh(c, provider, store, env, data, run);
            && second.Go?
            && var third := KeyValueRefresh(c, provider, store, env, data, second.run);
               && third.Go?
               && var last := SecretReferenceRefresh(c, provider, env, existing, third.run);
                  && last.Go? && last.run.settings == run.settings
                  && last.run.options.configMapSettingPopulated == run.options.configMapSettingPopulated
                  && last.run.options.secretSettingPopulated == run.options.secretSettingPopulated
  {
    hide FeatureFlagRefresh, KeyValueRefresh, SecretReferenceRefresh;
    FlagsOfLoad(c, provider, store, env, data, run);
    var second := FeatureFlagRefresh(c, provider, store, env, data, run);
    KeyValuesOfLoad(c, provider, store, env, data, second.run);
    SecretsOfLoad(c, provider, env, existing, KeyValueRefresh(c, provider, store, env, data, second.run).run);
  }

  /** In a full load the later phases only move their deadlines. */
  ghost predicate OnlyMoves(before: Run, step: Step) {
    && step.Go? && step.run.settings == before.settings && step.run.shouldReconcile == before.shouldReconcile
    && step.run.options.configMapSettingPopulated == before.options.configMapSettingPopulated
    && step.run.options.secretSettingPopulated == before.options.secretSettingPopulated
  }

  lemma FlagsOfLoad(c: Codec, provider: Provider, store: Store, env: Env, data: Data, run: Run)
    requires ValidSpec(provider.spec) && run.shouldReconcile && env.featureFlagsFetched < |store.featureFlags|
    ensures OnlyMoves(run, FeatureFlagRefresh(c, provider, store, env, data, run))
  {
    hide DueFeatureFlagRefresh;
  }

  lemma KeyValuesOfLoad(c: Codec, provider: Provider, store: Store, env: Env, data: Data, run: Run)
    requires ValidSpec(provider.spec) && run.shouldReconcile && env.keyValuesFetched < |store.keyValues|
    ensures OnlyMoves(run, KeyValueRefresh(c, provider, store, env, data, run))
  {
    hide DueKeyValueRefresh;
  }

  lemma SecretsOfLoad(c: Codec, provider: Provider, env: Env, existing: map<string, Secret>, run: Run)
    requires run.shouldReconcile && run.options.secretSettingPopulated == provider.spec.secret.Some?
    ensures OnlyMoves(run, SecretReferenceRefresh(c, provider, env, existing, run))
  {
    hide DueSecretRefresh;
  }

  lemma LoadPlan(c: Codec, provider: Provider, store: Store, env: Env, run: Run)
    requires env.keyValuesFetched < |store.keyValues| && env.featureFlagsFetched < |store.featureFlags|
    ensures var spec, content := provider.spec, store.keyValues[env.keyValuesFetched];
            var step := FullReconciliation(c, provider, store, env, run);
            step.Go? ==>
              && step.run.options.configMapSettingPopulated
              && step.run.options.secretSettingPopulated == spec.secret.Some?
              && step.run.settings.configMap
                 == Some(FullData(c, spec, store, env.keyValuesFetched, env.featureFlagsFetched))
              && step.run.settings.secrets == LoadedSecrets(c, spec, env, content) && step.run.settings.metadata.Own?
              && step.run.shouldReconcile == run.shouldReconcile
  {
    hide Typed, Resolved, SelectedMetadata, Loadable;
  }

  // ---------------------------------------------------------------- all phases

  /** The run is as planned. */
  ghost predicate AsPlanned(c: Codec, s: State, recon: Recon, env: Env, full: bool, run: Run)
    requires ValidSpec(s.provider.spec)
    requires env.keyValuesFetched < |s.store.keyValues| && env.featureFlagsFetched < |s.store.featureFlags|
  {
    var data, secrets := PlannedData(c, s, recon, env, full), PlannedSecrets(c, s, recon, env, full);
    && run.options.configMapSettingPopulated == data.Some? && (data.Some? ==> run.settings.configMap == data)
    && run.options.secretSettingPopulated == secrets.Some?
    && (secrets.Some? ==>
          run.settings.secrets == secrets.value && run.settings.metadata.Own? == SecretsLoad(s, recon, env, full))
  }

  lemma PopulatedAsPlanned(c: Codec, s: State, env: Env, start: Store, recon: Recon)
    requires Prepared(c, false, s, env, start, recon)
    ensures var step := Populating(c, s, env, recon);
            step.Go? ==> AsPlanned(c, s, recon, env, LoadsInFull(s, recon), step.run)
  {
    hide FullReconciliation, FeatureFlagRefresh, KeyValueRefresh, SecretReferenceRefresh, Halfway, Invariant,
         ShouldReconcile,
         FullData, LoadedSecrets, RefreshedSecrets, RefreshFeatureFlags, RefreshKeyValues, KeyValuesReload,
         FlagsReload;
    var spec, existing := s.provider.spec, Existing(s, recon);
    var data := LiveData(s.cluster, spec.configMapName);
    var first := StartRun(recon, s.cluster);
    if LoadsInFull(s, recon) {
      var run := first.(shouldReconcile := true);
      LoadPlan(c, s.provider, s.store, env, run);
      var loaded := FullReconciliation(c, s.provider, s.store, env, run);
      if loaded.Go? {
        FullPlan(c, s.provider, s.store, env, data, existing, loaded.run);
      }
    } else {
      assert first.(shouldReconcile := false) == first;
      var v, w := NotDueStands(c, false, s, env, start, recon, existing);
      FlagsPlan(c, s.provider, s.store, env, data, first);
      FlagsEnd(c, false, s, env, first, v, w);
      var w' := FeatureFlagRefreshFacts(c, false, s, env, first, v, w);
      FlagsKeepChecks(c, spec, s.provider, s.store, env, data, first);
      var second := FeatureFlagRefresh(c, s.provider, s.store, env, data, first);
      if second.Go? {
        KeyValuesPlan(c, s.provider, s.store, env, data, second.run);
        KeyValuesEnd(c, false, s, env, second.run, v, w');
        KeyValuesAreReloaded(c, false, s, env, second.run, v, w');
        SameReload(spec, s.store, env, second.run.recon, recon);
        var third := KeyValueRefresh(c, s.provider, s.store, env, data, second.run);
        if third.Go? {
          SecretsPlan(c, s.provider, env, existing, third.run);
          SameSecretDeadline(third.run.recon, second.run.recon, recon);
        }
      }
    }
  }

  lemma SameReload(spec: Spec, store: Store, env: Env, a: Recon, b: Recon)
    requires a.(nextFeatureFlag := 0) == b.(nextFeatureFlag := 0)
    ensures KeyValuesReload(spec, store, a, env) == KeyValuesReload(spec, store, b, env)
  {
    var t := a.(nextFeatureFlag := 0);
    assert a.nextKeyValue == t.nextKeyValue && a.keyValueETags == t.keyValueETags && a.sentinelETags == t.sentinelETags;
  }

  lemma SameSecretDeadline(a: Recon, b: Recon, d: Recon)
    requires a.(nextKeyValue := 0) == b.(nextKeyValue := 0) && b.(nextFeatureFlag := 0) == d.(nextFeatureFlag := 0)
    ensures a.nextSecret == d.nextSecret && a.secrets == d.secrets
  {
    assert a.(nextKeyValue := 0).nextSecret == a.nextSecret
           && b.(nextFeatureFlag := 0).nextSecret == d.(nextFeatureFlag := 0).nextSecret;
    assert a.(nextKeyValue := 0).secrets == a.secrets
           && b.(nextFeatureFlag := 0).secrets == d.(nextFeatureFlag := 0).secrets;
  }

  // ---------------------------------------------------------------- carrying out the plan

  /** The ConfigMap is written, or need not be. */
  predicate DataGoes(c: Codec, s: State, env: Env, data: Option<Data>) {
    var spec, name := s.provider.spec, s.provider.spec.configMapName;
    || data.None? || env.fault(PutConfigMap) == Fine
    || (name in s.cluster.configMaps
        && !ShouldCreateOrUpdateConfigMap(c, s.cluster.configMaps[name].data, data.value, spec.configMapData))
  }

  /** The names that are not known to be live can be read, and are the provider's own if they are
      live after all. */
  predicate NamesRead(s: State, recon: Recon, env: Env, secrets: map<string, SecretContent>) {
    forall n :: n in secrets && n !in Existing(s, recon) ==>
      Reads(env, GetNewSecret(n), SecretOwners(s.cluster, n), s.provider)
  }

  /** The writes and deletions that the Secrets need. */
  function PlanCalls(c: Codec, s: State, recon: Recon, env: Env, secrets: map<string, SecretContent>,
                     copied: bool): seq<Call>
    requires ListsKeys(env) && s.provider.spec.secret.Some?
  {
    SyncCalls(c, s.provider.spec.secret.value, env,
              Live(s.cluster, NamesToCollect(s.provider.spec, recon) + secrets.Keys), secrets, copied)
  }

  /** The Secrets are written and deleted as needed. */
  predicate SecretsGo(c: Codec, s: State, recon: Recon, env: Env, secrets: Option<map<string, SecretContent>>,
                      copied: bool)
    requires ListsKeys(env) && (secrets.Some? ==> s.provider.spec.secret.Some?)
  {
    secrets.None?
    || (NamesRead(s, recon, env, secrets.value)
        && AllFine(PlanCalls(c, s, recon, env, secrets.value, copied), env.fault))
  }

  lemma DataGoesExactly(c: Codec, s: State, env: Env, start: Store, recon: Recon)
    requires Prepared(c, false, s, env, start, recon)
    ensures var full := LoadsInFull(s, recon);
            PopulateAndWrite(c, s, env, recon).Go? <==>
              EndingOf(s, env, recon, full) == Through && DataGoes(c, s, env, PlannedData(c, s, recon, env, full))
    ensures PopulateAndWrite(c, s, env, recon).Go? ==>
              AsPlanned(c, s, recon, env, LoadsInFull(s, recon), PopulateAndWrite(c, s, env, recon).run)
  {
    hide PopulateSettings, WriteConfigMap, Invariant, ShouldReconcile, PopulatingEnding, PlannedData, PlannedSecrets,
         SecretsLoad;
    PopulatingEndsExactly(c, s, env, start, recon);
    PopulatedAsPlanned(c, s, env, start, recon);
    var existing := Live(s.cluster, NamesToCollect(s.provider.spec, recon));
    var v, w := PopulateFacts(c, false, s, env, start, recon, existing);
    PutGoes(c, s.provider, env, Populating(c, s, env, recon).run);
    PutKeepsRecord(c, s.provider, env, Populating(c, s, env, recon).run);
  }

  lemma CollectedByPlan(s: State, recon: Recon, run: Run)
    requires run.cluster.secrets == s.cluster.secrets
    ensures Collected(Existing(s, recon), run)
            == Live(s.cluster, NamesToCollect(s.provider.spec, recon) + run.settings.secrets.Keys)
  {
  }

  lemma SecretsGoExactly(c: Codec, s: State, env: Env, recon: Recon, run: Run)
    requires ListsKeys(env) && ReadyToSync(s, recon, run)
    ensures var secrets := if run.options.secretSettingPopulated then Some(run.settings.secrets) else None;
            && (secrets.Some? ==> s.provider.spec.secret.Some?)
            && (SyncSecrets(c, s.provider, env, Existing(s, recon), run).Go?
                <==> SecretsGo(c, s, recon, env, secrets, run.settings.metadata.Shared?))
  {
    hide SyncCalls, AllFine, Existing, Reads, WriteSecrets, ExpelSecrets;
    SameCluster(s, recon, run);
    CollectedByPlan(s, recon, run);
    if run.options.secretSettingPopulated {
      assert ReadsNew(s.provider, env, Existing(s, recon), run) <==> NamesRead(s, recon, env, run.settings.secrets);
      if ReadsNew(s.provider, env, Existing(s, recon), run) {
        SyncTouches(c, s, env, recon, run, "");
      } else {
        UnreadStops(c, s.provider, env, Existing(s, recon), run);
      }
    } else if s.provider.spec.secret.None? {
      NothingToExpel(c, s, env, recon, run);
    }
  }

  /** A reconcile, whether it loads in full, refreshes or does nothing, is done exactly when it
      is not kept from starting, all that exists can be read and taken over, no phase stops, and
      none of the writes and deletions that it needs fails. */
  lemma ReconcileIsDoneExactly(c: Codec, s: State, env: Env, store: Store)
    requires Inverse(c) && Invariant(c, false, s) && ValidEnv(env, s.store, store)
    ensures var t, full := s.(store := store), !InStep(s);
            var (ready, recon) := Prepare(s.provider, s.cluster, s.recon, env);
            Reconcile(c, t, env).outcome.Done? <==>
              && !s.running && ValidSpec(s.provider.spec) && ready && recon.Some?
              && EndingOf(t, env, recon.value, full) == Through
              && DataGoes(c, t, env, PlannedData(c, t, recon.value, env, full))
              && SecretsGo(c, t, recon.value, env, PlannedSecrets(c, t, recon.value, env, full),
                           !SecretsLoad(t, recon.value, env, full))
  {
    hide PopulateAndWrite, SyncSecrets, Prepare, Invariant, Prepared, Existing, InStep, ShouldReconcile, ReadyToSync,
         SecretsGo, DataGoes, PlannedData, PlannedSecrets, SecretsLoad, PopulatingEnding, Reads;
    var (ready, recon) := Prepare(s.provider, s.cluster, s.recon, env);
    if !s.running && ValidSpec(s.provider.spec) && ready {
      MiddleFacts(c, s, env, store, recon);
      PreparedDrift(c, s, env, recon);
      var t, prepared := s.(store := store), s.(store := store, recon := recon);
      ExistingIs(prepared, recon.value);
      DataGoesExactly(c, prepared, env, s.store, recon.value);
      SamePlan(c, t, recon, env, !InStep(s));
      var written := PopulateAndWrite(c, prepared, env, recon.value);
      if written.Go? {
        SecretsGoExactly(c, prepared, env, recon.value, written.run);
        NoSecretsGo(c, t, recon.value, env);
        NoSecretsGo(c, prepared, recon.value, env);
        OnlyWithSection(c, t, recon.value, env, !InStep(s));
      }
    }
  }

  lemma NoSecretsGo(c: Codec, s: State, recon: Recon, env: Env)
    requires ListsKeys(env)
    ensures forall copied: bool :: SecretsGo(c, s, recon, env, None, copied)
  {
  }

  lemma OnlyWithSection(c: Codec, s: State, recon: Recon, env: Env, full: bool)
    requires env.keyValuesFetched < |s.store.keyValues|
    ensures PlannedSecrets(c, s, recon, env, full).Some? ==> s.provider.spec.secret.Some?
  {
    hide LoadedSecrets, RefreshedSecrets;
  }

  /** Plans are about the prepared record, whatever was recorded before. */
  lemma SamePlan(c: Codec, s: State, recon: Option<Recon>, env: Env, full: bool)
    requires recon.Some? && ValidSpec(s.provider.spec) && ListsKeys(env)
    requires env.keyValuesFetched < |s.store.keyValues| && env.featureFlagsFetched < |s.store.featureFlags|
    ensures var p, r := s.(recon := recon), recon.value;
            && PlannedData(c, p, r, env, full) == PlannedData(c, s, r, env, full)
            && PlannedSecrets(c, p, r, env, full) == PlannedSecrets(c, s, r, env, full)
            && SecretsLoad(p, r, env, full) == SecretsLoad(s, r, env, full)
            && (forall data: Option<Data> :: DataGoes(c, p, env, data) == DataGoes(c, s, env, data))
            && (s.provider.spec.secret.Some? ==>
                  forall secrets: Option<map<string, SecretContent>>, copied: bool ::
                    SecretsGo(c, p, r, env, secrets, copied) == SecretsGo(c, s, r, env, secrets, copied))
  {
    hide RefreshedSecrets, LoadedSecrets, RefreshFeatureFlags, RefreshKeyValues, FullData, SyncCalls, AllFine, Reads,
         ShouldCreateOrUpdateConfigMap, KeyValuesReload, FlagsReload;
  }
}
