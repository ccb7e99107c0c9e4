/** What a reconcile that is done leaves in the ConfigMap and in the Secrets, told from the store,
    from Key Vault and from what was live before. */
module Loads {
  import opened Wrappers
  import opened TypedSetting
  import opened ReconcileTypes
  import opened Processor
  import opened Reconciler
  import opened NoLostUpdate
  import opened SecretSync
  import opened SecretGuarantees
  import opened Convergence
  import opened SecretRefresh
  import opened Repair
  import opened Stopping
  import opened Plans

  // ---------------------------------------------------------------- the ConfigMap

  /** The version of the key-values that the data stands for afterwards, and that of the flags. */
  function KeyValuesAfter(s: State, recon: Recon, env: Env, full: bool, v: nat): nat {
    if full || KeyValuesReload(s.provider.spec, s.store, recon, env) then env.keyValuesFetched else v
  }

  function FlagsAfter(s: State, recon: Recon, env: Env, full: bool, w: nat): nat {
    if full || FlagsReload(s.provider.spec, recon, env) then env.featureFlagsFetched else w
  }

  /** Planned data are those of a full load of what is fetched and, for what is not, of what the
      live data stands for. */
  lemma PlannedIsFull(c: Codec, s: State, recon: Recon, env: Env, full: bool, v: nat, w: nat)
    requires Inverse(c) && ValidSpec(s.provider.spec)
    requires env.keyValuesFetched < |s.store.keyValues| && env.featureFlagsFetched < |s.store.featureFlags|
    requires !full ==> StandsFor(c, s.provider.spec, s.cluster, s.store, v, w)
    ensures var spec, data := s.provider.spec, PlannedData(c, s, recon, env, full);
            var v', w' := KeyValuesAfter(s, recon, env, full, v), FlagsAfter(s, recon, env, full, w);
            && v' < |s.store.keyValues| && w' < |s.store.featureFlags|
            && (data.Some? ==> data.value == FullData(c, spec, s.store, v', w'))
            && (data.None? ==> !full && v' == v && w' == w)
  {
    hide Typed, Reflects, RefreshFeatureFlags, RefreshKeyValues;
    if !full {
      var spec, live := s.provider.spec, LiveData(s.cluster, s.provider.spec.configMapName);
      var kv, kv' := s.store.keyValues[v].settings, s.store.keyValues[env.keyValuesFetched].settings;
      if FlagsReload(spec, recon, env) {
        FeatureFlagRefreshIsFull(c, kv, s.store.featureFlags[w], s.store.featureFlags[env.featureFlagsFetched], live,
                                 spec.configMapData);
        BothRefreshesAreFull(c, kv, s.store.featureFlags[w], kv', s.store.featureFlags[env.featureFlagsFetched], live,
                             spec.configMapData);
      } else {
        KeyValueRefreshIsFull(c, kv, Flags(spec, s.store, w), kv', live, spec.configMapData);
      }
    }
  }

  lemma WritingStands(c: Codec, provider: Provider, env: Env, store: Store, run: Run, v: nat, w: nat)
    requires v < |store.keyValues| && w < |store.featureFlags|
    requires run.settings.configMap == Some(FullData(c, provider.spec, store, v, w))
    ensures var step := WriteConfigMap(c, provider, env, run);
            step.Go? ==> StandsFor(c, provider.spec, step.run.cluster, store, v, w)
  {
    hide FullData, Reflects, ShouldCreateOrUpdateConfigMap;
    var name, latest := provider.spec.configMapName, FullData(c, provider.spec, store, v, w);
    var existing := if name in run.cluster.configMaps then run.cluster.configMaps[name].data else map[];
    WrittenOrSkippedReflects(c, existing, latest, provider.spec.configMapData);
  }

  lemma PopulatedStands(c: Codec, s: State, env: Env, start: Store, recon: Recon, v: nat, w: nat)
    requires Prepared(c, false, s, env, start, recon)
    requires !LoadsInFull(s, recon) ==> StandsFor(c, s.provider.spec, s.cluster, s.store, v, w)
    ensures var full, step := LoadsInFull(s, recon), PopulateAndWrite(c, s, env, recon);
            step.Go? ==>
              StandsFor(c, s.provider.spec, step.run.cluster, s.store, KeyValuesAfter(s, recon, env, full, v),
                        FlagsAfter(s, recon, env, full, w))
  {
    hide PopulateSettings, WriteConfigMap, Invariant, ShouldReconcile, PopulatingEnding, PlannedData, PlannedSecrets,
         FullData, Reflects, SecretsLoad;
    var full := LoadsInFull(s, recon);
    PlannedIsFull(c, s, recon, env, full, v, w);
    PopulatedAsPlanned(c, s, env, start, recon);
    var existing := Live(s.cluster, NamesToCollect(s.provider.spec, recon));
    var v0, w0 := PopulateFacts(c, false, s, env, start, recon, existing);
    var populated := Populating(c, s, env, recon);
    if populated.Go? && populated.run.options.configMapSettingPopulated {
      WritingStands(c, s.provider, env, s.store, populated.run, KeyValuesAfter(s, recon, env, full, v),
                    FlagsAfter(s, recon, env, full, w));
    }
  }

  /** What was recorded of the store and when to look again is not touched by preparing. */
  lemma PreparedReloads(s: State, env: Env, store: Store)
    requires Prepare(s.provider, s.cluster, s.recon, env).1.Some?
    ensures var before, recon := s.recon.GetOr(INITIAL), Prepare(s.provider, s.cluster, s.recon, env).1.value;
            && KeyValuesReload(s.provider.spec, store, before, env)
               == KeyValuesReload(s.provider.spec, store, recon, env)
            && FlagsReload(s.provider.spec, before, env) == FlagsReload(s.provider.spec, recon, env)
  {
  }

  /** After a reconcile that is done a reader finds in the ConfigMap the key-values that were
      fetched, or, if none were due or changed, those found before; and likewise for flags. */
  lemma DoneShows(c: Codec, s: State, env: Env, store: Store, v: nat, w: nat)
    requires Inverse(c) && Invariant(c, false, s) && ValidEnv(env, s.store, store)
    requires InStep(s) ==> StandsFor(c, s.provider.spec, s.cluster, s.store, v, w)
    ensures var t, r, before := s.(store := store), Reconcile(c, s.(store := store), env), s.recon.GetOr(INITIAL);
            var spec, v', w' := s.provider.spec, KeyValuesAfter(t, before, env, !InStep(s), v),
                                FlagsAfter(t, before, env, !InStep(s), w);
            r.outcome.Done? ==>
              && v' < |store.keyValues| && w' < |store.featureFlags| && spec.configMapName in r.state.cluster.configMaps
              && Shows(c, store.keyValues[v'].settings,
                       if spec.featureFlag.Some? then Some(store.featureFlags[w']) else None, spec.configMapData,
                       r.state.cluster.configMaps[spec.configMapName].data)
  {
    hide PopulateAndWrite, SyncSecrets, Prepare, Invariant, Prepared, Existing, InStep, ShouldReconcile, StandsFor,
         KeyValuesReload, FlagsReload, Shows, KeepsCore;
    var r := Reconcile(c, s.(store := store), env);
    if r.outcome.Done? {
      var (ready, recon) := Prepare(s.provider, s.cluster, s.recon, env);
      MiddleFacts(c, s, env, store, recon);
      PreparedDrift(c, s, env, recon);
      PreparedReloads(s, env, store);
      var t, prepared := s.(store := store), s.(store := store, recon := recon);
      if InStep(s) {
        StoreOnlyGrows(c, s, store, v, w);
      }
      PopulatedStands(c, prepared, env, s.store, recon.value, v, w);
      var written := PopulateAndWrite(c, prepared, env, recon.value);
      SyncSecretsKeepsCore(c, s.provider, env, Live(s.cluster, NamesToCollect(s.provider.spec, recon.value)),
                           written.run);
      var v', w' := KeyValuesAfter(t, s.recon.GetOr(INITIAL), env, !InStep(s), v),
                    FlagsAfter(t, s.recon.GetOr(INITIAL), env, !InStep(s), w);
      KeepsCoreConfigMaps(written.run, SyncSecrets(c, s.provider, env,
                                                   Live(s.cluster, NamesToCollect(s.provider.spec, recon.value)),
                                                   written.run).run);
      SameMapStands(c, s.provider.spec, written.run.cluster, r.state.cluster, store, v', w');
      StandsForExactly(c, s.provider.spec, r.state.cluster, store, v', w');
    }
  }

  lemma StoreOnlyGrows(c: Codec, s: State, store: Store, v: nat, w: nat)
    requires StandsFor(c, s.provider.spec, s.cluster, s.store, v, w)
    requires s.store.keyValues <= store.keyValues && s.store.featureFlags <= store.featureFlags
    ensures StandsFor(c, s.provider.spec, s.cluster, store, v, w)
  {
  }

  lemma SameMapStands(c: Codec, spec: Spec, before: Cluster, after: Cluster, store: Store, v: nat, w: nat)
    requires StandsFor(c, spec, before, store, v, w) && after.configMaps == before.configMaps
    ensures StandsFor(c, spec, after, store, v, w) && v < |store.keyValues| && w < |store.featureFlags|
  {
  }

  // ---------------------------------------------------------------- the Secrets

  /** After a reconcile that is done and has loaded key-values, in full or because they have
      changed, the target and the Secrets with references are tracked, each with its references,
      and hold the data that is due to them. */
  lemma LoadLeavesSecrets(c: Codec, s: State, env: Env, store: Store, n: string)
    requires Inverse(c) && Invariant(c, false, s) && ValidEnv(env, s.store, store) && s.provider.spec.secret.Some?
    ensures var r, spec := Reconcile(c, s.(store := store), env), s.provider.spec;
            r.outcome.Done? && (!InStep(s) || KeyValuesReload(spec, store, s.recon.GetOr(INITIAL), env)) ==>
              && r.state.recon.Some?
              && AsSelected(c, spec, env, store.keyValues[env.keyValuesFetched].references, r.state.recon.value,
                            r.state.cluster, n)
  {
    hide PopulateAndWrite, SyncSecrets, Prepare, Invariant, ReadyToSync, Prepared, Existing, InStep, Sourced, IsLoaded,
         LiveAsPopulated, KeepsCore, IsRefreshed, PlannedData, ShouldReconcile, PopulatingEnding, DataGoes,
         KeyValuesReload, AsSelected, SecretsTracked;
    var r, spec := Reconcile(c, s.(store := store), env), s.provider.spec;
    if r.outcome.Done? && (!InStep(s) || KeyValuesReload(spec, store, s.recon.GetOr(INITIAL), env)) {
      DoneMeansValid(c, s, env, store);
      var (ready, recon) := Prepare(s.provider, s.cluster, s.recon, env);
      MiddleFacts(c, s, env, store, recon);
      PreparedDrift(c, s, env, recon);
      PreparedReloads(s, env, store);
      DonePopulates(c, s, env, store);
      SecretsAreConserved(c, s, env, store);
      var t, prepared := s.(store := store), s.(store := store, recon := recon);
      DataGoesExactly(c, prepared, env, s.store, recon.value);
      SamePlan(c, t, recon, env, !InStep(s));
      var run := Populated(c, s, env, store);
      OwnIsLoaded(c, prepared, env, recon.value, run);
      LoadedAsSelected(c, prepared, env, run, r.state.recon.value, r.state.cluster,
                       NamesToCollect(spec, s.recon.GetOr(INITIAL)), n);
    }
  }

  lemma OwnIsLoaded(c: Codec, s: State, env: Env, recon: Recon, run: Run)
    requires env.keyValuesFetched < |s.store.keyValues| && Sourced(c, s, env, recon, run)
    requires run.options.secretSettingPopulated && run.settings.metadata.Own?
    ensures IsLoaded(c, s, env, run)
  {
    hide Resolved, SelectedMetadata, RefreshedSecrets;
  }

  // ---------------------------------------------------------------- types and owners

  /** A live Secret keeps its type and its owners; a new one has the type that was populated, and
      the provider as its one owner. */
  ghost predicate KeepsShape(self: OwnerReference, before: Cluster, after: Cluster,
                             secrets: map<string, SecretContent>, n: string)
  {
    n in after.secrets ==>
      if n in before.secrets
      then after.secrets[n].kind == before.secrets[n].kind && after.secrets[n].owners == before.secrets[n].owners
      else n in secrets && after.secrets[n].kind == secrets[n].kind && after.secrets[n].owners == [self]
  }

  ghost predicate Grows(before: Cluster, after: Cluster) { before.secrets.Keys <= after.secrets.Keys }

  lemma OneWriteKeepsShape(c: Codec, provider: Provider, env: Env, existing: map<string, Secret>, name: string,
                           run: Run, n: string)
    requires name in run.settings.secrets
    ensures var after := WriteOneSecret(c, provider, env, existing, name, run).run;
            && KeepsShape(provider.self, run.cluster, after.cluster, run.settings.secrets, n)
            && Grows(run.cluster, after.cluster) && after.settings.secrets == run.settings.secrets
  {
    hide ShouldCreateOrUpdateSecret;
  }

  lemma {:induction false} WritesKeepShape(c: Codec, provider: Provider, env: Env, existing: map<string, Secret>,
                                           names: seq<string>, run: Run, n: string)
    requires forall m :: m in names ==> m in run.settings.secrets
    ensures var after := WriteSecrets(c, provider, env, existing, names, run).run;
            KeepsShape(provider.self, run.cluster, after.cluster, run.settings.secrets, n)
            && Grows(run.cluster, after.cluster)
    decreases names
  {
    hide WriteOneSecret;
    if names != [] {
      OneWriteKeepsShape(c, provider, env, existing, names[0], run, n);
      var step := WriteOneSecret(c, provider, env, existing, names[0], run);
      if step.Go? {
        WritesKeepShape(c, provider, env, existing, names[1..], step.run, n);
      }
    }
  }

  lemma {:induction false} ExpelsKeepShape(env: Env, keep: set<string>, names: seq<string>, run: Run, n: string)
    ensures var after := ExpelSecrets(env, keep, names, run).run.cluster;
            n in after.secrets ==> n in run.cluster.secrets && after.secrets[n] == run.cluster.secrets[n]
    decreases names
  {
    if names != [] {
      if names[0] in keep {
        ExpelsKeepShape(env, keep, names[1..], run, n);
      } else {
        var call := DeleteSecret(names[0]);
        var deleted := Called(run, call).(cluster := run.cluster.(secrets := run.cluster.secrets - {names[0]}));
        ExpelsKeepShape(env, keep, names[1..], deleted, n);
      }
    }
  }

  lemma SyncKeepsShape(c: Codec, provider: Provider, env: Env, existing: map<string, Secret>, run: Run, n: string)
    requires ListsKeys(env)
    ensures KeepsShape(provider.self, run.cluster, SyncSecrets(c, provider, env, existing, run).run.cluster,
                       run.settings.secrets, n)
    ensures !run.options.secretSettingPopulated ==>
              (n in SyncSecrets(c, provider, env, existing, run).run.cluster.secrets ==> n in run.cluster.secrets)
  {
    hide WriteSecrets, ExpelSecrets, ReadsNew;
    if !run.options.secretSettingPopulated {
      ExpelsKeepShape(env, MetadataOf(run).Keys, env.order(existing.Keys), run, n);
    } else if ReadsNew(provider, env, existing, run) {
      var names := env.order(run.settings.secrets.Keys);
      assert Lists(names, run.settings.secrets.Keys);
      var collected := Collected(existing, run);
      WritesKeepShape(c, provider, env, collected, names, run, n);
      var step := WriteSecrets(c, provider, env, collected, names, run);
      ExpelsKeepShape(env, MetadataOf(step.run).Keys, env.order(collected.Keys), step.run, n);
    }
  }

  /** No reconcile, however it ends, changes the type or the owners of a Secret; one that a load
      creates, if it is done, is the provider's alone and of the type that it is tracked with. */
  lemma TypesAndOwnersStay(c: Codec, s: State, env: Env, store: Store, n: string)
    requires Inverse(c) && Invariant(c, false, s) && ValidEnv(env, s.store, store)
    ensures var r, before := Reconcile(c, s.(store := store), env), s.cluster.secrets;
            n in r.state.cluster.secrets ==>
              var after := r.state.cluster.secrets[n];
              if n in before then after.kind == before[n].kind && after.owners == before[n].owners
              else
                && after.owners == [s.provider.self]
                && (r.outcome.Done? ==>
                      && r.state.recon.Some? && n in r.state.recon.value.secrets
                      && after.kind == r.state.recon.value.secrets[n].kind)
  {
    hide PopulateAndWrite, SyncSecrets, Prepare, Invariant, Prepared, Existing, ReadyToSync, KeepsCore;
    var (ready, recon) := Prepare(s.provider, s.cluster, s.recon, env);
    if !s.running && ValidSpec(s.provider.spec) && ready {
      MiddleFacts(c, s, env, store, recon);
      var prepared := s.(store := store, recon := recon);
      ExistingIs(prepared, recon.value);
      PopulateAndWriteFrame(c, prepared, env, s.store, recon.value);
      var written := PopulateAndWrite(c, prepared, env, recon.value);
      if written.Go? {
        SyncKeepsShape(c, s.provider, env, Existing(prepared, recon.value), written.run, n);
        if Reconcile(c, s.(store := store), env).outcome.Done? && n !in s.cluster.secrets
           && n in written.run.settings.secrets && written.run.options.secretSettingPopulated {
          CreatedIsTracked(c, s, env, store, n);
        }
      }
    }
  }

  lemma CreatedIsTracked(c: Codec, s: State, env: Env, store: Store, n: string)
    requires Inverse(c) && Invariant(c, false, s) && ValidEnv(env, s.store, store) && ValidSpec(s.provider.spec)
    requires Reconcile(c, s.(store := store), env).outcome.Done? && n !in s.cluster.secrets
    requires Prepare(s.provider, s.cluster, s.recon, env).1.Some?
    requires var run := Populated(c, s, env, store); run.options.secretSettingPopulated && n in run.settings.secrets
    ensures var r := Reconcile(c, s.(store := store), env).state;
            && r.recon.Some? && n in r.recon.value.secrets
            && r.recon.value.secrets[n].kind == Populated(c, s, env, store).settings.secrets[n].kind
  {
    hide PopulateAndWrite, SyncSecrets, Prepare, Invariant, Prepared, Existing, ReadyToSync, Sourced, IsRefreshed,
         IsLoaded, KeepsCore, InStep;
    var recon := Prepare(s.provider, s.cluster, s.recon, env).1;
    MiddleFacts(c, s, env, store, recon);
    var t, run := s.(store := store, recon := recon), Populated(c, s, env, store);
    PopulateAndWriteIsSourced(c, t, env, s.store, recon.value);
    SourcedHasSection(c, t, env, recon.value, run);
    DonePopulates(c, s, env, store);
    NewIsOfItsKind(c, t, env, recon.value, run, n);
    assert LiveAsPopulated(c, s.provider.spec, run, Reconcile(c, s.(store := store), env).state.recon.value,
                           Reconcile(c, s.(store := store), env).state.cluster, n);
  }

  lemma SourcedHasSection(c: Codec, s: State, env: Env, recon: Recon, run: Run)
    requires env.keyValuesFetched < |s.store.keyValues| && Sourced(c, s, env, recon, run)
    requires run.options.secretSettingPopulated
    ensures s.provider.spec.secret.Some?
  {
    hide IsLoaded, IsRefreshed;
  }

  lemma NewIsOfItsKind(c: Codec, s: State, env: Env, recon: Recon, run: Run, n: string)
    requires env.keyValuesFetched < |s.store.keyValues| && Sourced(c, s, env, recon, run)
    requires run.options.secretSettingPopulated && n in run.settings.secrets && n !in s.cluster.secrets
    ensures n in MetadataOf(run) && run.settings.secrets[n].kind == MetadataOf(run)[n].kind
  {
    hide SelectedMetadata, ResolvedData, RefreshedSecrets, Existing;
    RefreshedKeys(c, s.provider.spec, env, recon.secrets, Existing(s, recon));
    ExistingIsLive(s, recon);
  }

  lemma ExistingIsLive(s: State, recon: Recon)
    ensures forall n :: n in Existing(s, recon) ==> n in s.cluster.secrets
  {
  }

  /** The same for ConfigMaps, of which only the target is ever created. */
  lemma MapOwnersStay(c: Codec, s: State, env: Env, store: Store, n: string)
    requires Inverse(c) && Invariant(c, false, s) && ValidEnv(env, s.store, store)
    ensures var after, before := Reconcile(c, s.(store := store), env).state.cluster.configMaps, s.cluster.configMaps;
            n in after ==>
              if n in before then after[n].owners == before[n].owners
              else n == s.provider.spec.configMapName && after[n].owners == [s.provider.self]
  {
    hide PopulateAndWrite, SyncSecrets, Prepare, Invariant, Prepared, Existing, ReadyToSync, KeepsCore;
    var (ready, recon) := Prepare(s.provider, s.cluster, s.recon, env);
    if !s.running && ValidSpec(s.provider.spec) && ready {
      MiddleFacts(c, s, env, store, recon);
      WritingKeepsOwners(c, s.(store := store, recon := recon), env, s.store, recon.value, n);
      var written := PopulateAndWrite(c, s.(store := store), env, recon.value);
      if written.Go? {
        var existing := Live(s.cluster, NamesToCollect(s.provider.spec, recon.value));
        SyncSecretsKeepsCore(c, s.provider, env, existing, written.run);
        KeepsCoreConfigMaps(written.run, SyncSecrets(c, s.provider, env, existing, written.run).run);
      }
    }
  }

  lemma WritingKeepsOwners(c: Codec, s: State, env: Env, start: Store, recon: Recon, n: string)
    requires Prepared(c, false, s, env, start, recon)
    ensures var after, before := PopulateAndWrite(c, s, env, recon).run.cluster.configMaps, s.cluster.configMaps;
            n in after ==>
              if n in before then after[n].owners == before[n].owners
              else n == s.provider.spec.configMapName && after[n].owners == [s.provider.self]
  {
    hide PopulateSettings, Invariant, ShouldCreateOrUpdateConfigMap;
    var existing := Live(s.cluster, NamesToCollect(s.provider.spec, recon));
    var v, w := PopulateFacts(c, false, s, env, start, recon, existing);
  }

  // ---------------------------------------------------------------- before the load

  /** Getting as far as the Secrets, but no further, leaves the record as it was, and begins one if
      there was none. */
  lemma UnreadSecretsKeepRecord(s: State, env: Env, n: string)
    requires env.fault(GetConfigMap) == Fine
    requires s.provider.spec.configMapName in s.cluster.configMaps ==>
               s.provider.self in s.cluster.configMaps[s.provider.spec.configMapName].owners
    requires n in NamesToCollect(s.provider.spec, s.recon.GetOr(INITIAL)) && env.fault(GetSecret(n)) != Fine
    ensures Prepare(s.provider, s.cluster, s.recon, env) == (false, Some(s.recon.GetOr(INITIAL)))
  {
  }

  /** A reconcile gets ready exactly when the ConfigMap and the target and tracked Secrets can be
      read and belong to no other, and clients are there for the present generation or can be made.
      It then forgets the ConfigMap and the versions of Secrets that are gone, and without a section
      for Secrets all of them. */
  lemma ReadyExactly(s: State, env: Env)
    ensures var (ready, recon) := Prepare(s.provider, s.cluster, s.recon, env);
            var self, spec, before := s.provider.self, s.provider.spec, s.recon.GetOr(INITIAL);
            && (ready <==>
                  && env.fault(GetConfigMap) == Fine
                  && (spec.configMapName in s.cluster.configMaps ==>
                        self in s.cluster.configMaps[spec.configMapName].owners)
                  && (forall n :: spec.secret.Some? && (n == spec.secret.value.target || n in before.secrets) ==>
                        env.fault(GetSecret(n)) == Fine
                        && (n in s.cluster.secrets ==> self in s.cluster.secrets[n].owners))
                  && ((before.hasClientManager && before.generation == s.provider.generation)
                      || env.fault(NewClientManager) == Fine))
            && (ready ==>
                  && recon.Some? && recon.value.hasClientManager
                  && recon.value.configMapVersion
                     == (if spec.configMapName in s.cluster.configMaps then before.configMapVersion else None)
                  && (spec.secret.None? ==> recon.value.secrets == map[])
                  && (spec.secret.Some? ==>
                        && recon.value.secrets.Keys == before.secrets.Keys
                        && forall n :: n in before.secrets ==>
                             recon.value.secrets[n]
                             == before.secrets[n].(version := if n in s.cluster.secrets then before.secrets[n].version
                                                              else None)))
  {
  }

  /** References are loaded only where there is a section for Secrets. */
  lemma LoadNeedsSection(c: Codec, s: State, env: Env, store: Store)
    requires Inverse(c) && Invariant(c, false, s) && ValidEnv(env, s.store, store)
    ensures Reconcile(c, s.(store := store), env).outcome.Done?
            && (!InStep(s) || KeyValuesReload(s.provider.spec, store, s.recon.GetOr(INITIAL), env))
            && store.keyValues[env.keyValuesFetched].references != map[] ==>
              s.provider.spec.secret.Some?
  {
    hide PopulateAndWrite, SyncSecrets, Prepare, Invariant, Prepared, InStep, ShouldReconcile, PlannedData,
         PlannedSecrets, KeyValuesReload, DataGoes, SecretEnding, FlagEnding;
    if Reconcile(c, s.(store := store), env).outcome.Done? {
      DoneMeansValid(c, s, env, store);
      var (ready, recon) := Prepare(s.provider, s.cluster, s.recon, env);
      MiddleFacts(c, s, env, store, recon);
      PreparedDrift(c, s, env, recon);
      PreparedReloads(s, env, store);
      DataGoesExactly(c, s.(store := store, recon := recon), env, s.store, recon.value);
      ReloadIsDue(s.provider.spec, store, recon.value, env);
    }
  }

  lemma ReloadIsDue(spec: Spec, store: Store, recon: Recon, env: Env)
    ensures KeyValuesReload(spec, store, recon, env) <==>
              KeyValuesDue(spec, recon, env) && KeyValuesChanged(spec, store, recon, env)
  {
  }
}
