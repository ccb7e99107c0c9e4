/** Full loads that stop after the ConfigMap has been written: when nothing is left that would
    call for another, and the Secrets stay as they were. */
module StoppedLoads {
  import opened Wrappers
  import opened TypedSetting
  import opened ReconcileTypes
  import opened Processor
  import opened Reconciler
  import opened NoLostUpdate
  import opened SecretSync
  import opened SecretGuarantees
  import opened Deadlines
  import opened Convergence
  import opened SecretRefresh
  import opened Repair
  import opened Stopping
  import opened Failures
  import opened SecretCalls
  import opened RecordedVersions

  // ---------------------------------------------------------------- the calls of a load

  /** The Secrets that a full load populates. */
  function LoadedSecrets(c: Codec, spec: Spec, env: Env, content: Content): map<string, SecretContent> {
    Resolved(c, env, SecretOptions(spec), SelectedMetadata(spec, content.references))
  }

  /** All names that a full load looks at. */
  function LoadedNames(c: Codec, s: State, env: Env, content: Content): set<string> {
    NamesToCollect(s.provider.spec, s.recon.GetOr(INITIAL)) + LoadedSecrets(c, s.provider.spec, env, content).Keys
  }

  /** The writes and deletions that a full load needs. */
  function LoadCalls(c: Codec, s: State, env: Env, content: Content): seq<Call>
    requires ListsKeys(env) && s.provider.spec.secret.Some?
  {
    SyncCalls(c, s.provider.spec.secret.value, env, Live(s.cluster, LoadedNames(c, s, env, content)),
              LoadedSecrets(c, s.provider.spec, env, content), false)
  }

  /** Whether the names that are not known to be live can be read, and are the provider's own
      if they are live after all. */
  predicate NewNamesRead(c: Codec, s: State, env: Env, content: Content) {
    var known := Live(s.cluster, NamesToCollect(s.provider.spec, s.recon.GetOr(INITIAL)));
    forall n :: n in LoadedSecrets(c, s.provider.spec, env, content) && n !in known ==>
      Reads(env, GetNewSecret(n), SecretOwners(s.cluster, n), s.provider)
  }

  /** A full load gets as far as the ConfigMap, and that is written, or need not be. */
  ghost predicate ConfigMapGoesThrough(c: Codec, s: State, env: Env)
    requires env.keyValuesFetched < |s.store.keyValues| && env.featureFlagsFetched < |s.store.featureFlags|
  {
    var spec, name := s.provider.spec, s.provider.spec.configMapName;
    && LoadEnding(spec, s.store.keyValues[env.keyValuesFetched], env.fault(CreateTargetSettings), FullLoad) == Through
    && (env.fault(PutConfigMap) == Fine
        || (name in s.cluster.configMaps
            && !ShouldCreateOrUpdateConfigMap(c, s.cluster.configMaps[name].data,
                                              FullData(c, spec, s.store, env.keyValuesFetched, env.featureFlagsFetched),
                                              spec.configMapData)))
  }

  /** Some tracked Secret is written or deleted before the load stops. */
  predicate TouchesTracked(c: Codec, s: State, env: Env, content: Content)
    requires ListsKeys(env) && s.provider.spec.secret.Some? && s.recon.Some?
  {
    && NewNamesRead(c, s, env, content)
    && exists n :: n in s.recon.value.secrets && Touches(Effective(LoadCalls(c, s, env, content), env.fault), n)
  }

  predicate Touches(calls: set<Call>, n: string) { PutSecret(n) in calls || DeleteSecret(n) in calls }

  // ---------------------------------------------------------------- the middle part of a full load

  lemma FullLoadWritesMap(c: Codec, s: State, env: Env, start: Store, recon: Recon)
    requires Prepared(c, false, s, env, start, recon) && LoadsInFull(s, recon)
    ensures PopulateAndWrite(c, s, env, recon).Go? <==> ConfigMapGoesThrough(c, s, env)
  {
    hide PopulateSettings, Typed, ShouldCreateOrUpdateConfigMap, Invariant, LoadEnding, ShouldReconcile, FlagEnding,
         KeyValueEnding, SecretEnding, RefreshKeyValues;
    PopulatingEndsExactly(c, s, env, start, recon);
    var existing := Live(s.cluster, NamesToCollect(s.provider.spec, recon));
    var v, w := PopulateFacts(c, false, s, env, start, recon, existing);
    PutGoes(c, s.provider, env, Populating(c, s, env, recon).run);
  }

  lemma PutGoes(c: Codec, provider: Provider, env: Env, run: Run)
    ensures var name := provider.spec.configMapName;
            WriteConfigMap(c, provider, env, run).Go? <==>
              || env.fault(PutConfigMap) == Fine
              || (name in run.cluster.configMaps
                  && !ShouldCreateOrUpdateConfigMap(c, run.cluster.configMaps[name].data,
                                                    run.settings.configMap.GetOr(map[]),
                                                    provider.spec.configMapData))
  {
    hide ShouldCreateOrUpdateConfigMap;
  }

  lemma FullLoadPopulates(c: Codec, s: State, env: Env, start: Store, recon: Recon)
    requires Prepared(c, false, s, env, start, recon) && LoadsInFull(s, recon) && s.provider.spec.secret.Some?
    ensures var step, content := PopulateAndWrite(c, s, env, recon), s.store.keyValues[env.keyValuesFetched];
            step.Go? ==>
              && step.run.options.secretSettingPopulated
              && step.run.settings.secrets == LoadedSecrets(c, s.provider.spec, env, content)
              && step.run.settings.metadata == Own(SelectedMetadata(s.provider.spec, content.references))
  {
    hide PopulateAndWrite, Invariant, ShouldReconcile, Resolved, SelectedMetadata, IsRefreshed;
    PopulateAndWriteIsSourced(c, s, env, start, recon);
    var v, w := PopulateAndWriteFacts(c, false, s, env, start, recon);
    var step := PopulateAndWrite(c, s, env, recon);
    if step.Go? {
      FullIsLoaded(c, s, env, recon, step.run);
    }
  }

  // ---------------------------------------------------------------- drift that remains

  /** Nothing but the ConfigMap has drifted. */
  ghost predicate ConfigMapAloneDrifted(s: State) {
    && s.recon.Some? && s.recon.value.generation == s.provider.generation
    && s.recon.value.annotations == s.provider.annotations
    && (s.provider.spec.secret.Some? ==> NoSecretDrift(s.recon.value, Existing(s, s.recon.value)))
    && !InStep(s)
  }

  /** Secrets are in step after a load that stopped exactly when they were before and no tracked
      one has been touched. */
  lemma TouchedSecretsDrift(spec: Spec, recon: Recon, before: Cluster, after: Cluster, touched: set<string>)
    requires spec.secret.Some? && spec.secret.value.target in recon.secrets
    requires VersionsKnown(recon.secrets, before.nextVersion)
    requires forall n :: n in recon.secrets && n in touched ==> n !in after.secrets || NewAt(before, after, n)
    requires forall n :: n in recon.secrets && n !in touched ==> SameAt(before, after, n)
    ensures var names := NamesToCollect(spec, recon);
            NoSecretDrift(recon, Live(after, names))
            <==> NoSecretDrift(recon, Live(before, names)) && forall n :: n in recon.secrets ==> n !in touched
  {
    var names := NamesToCollect(spec, recon);
    assert names == recon.secrets.Keys;
    if NoSecretDrift(recon, Live(after, names)) {
      forall n | n in recon.secrets
        ensures n !in touched && n in before.secrets && recon.secrets[n].version == Some(before.secrets[n].version)
      {
        assert n in Live(after, names).Keys;
        assert n in Live(after, names) && recon.secrets[n].version == Some(after.secrets[n].version);
      }
    } else if NoSecretDrift(recon, Live(before, names)) && forall n :: n in recon.secrets ==> n !in touched {
      forall n | n in recon.secrets
        ensures n in after.secrets && recon.secrets[n].version == Some(after.secrets[n].version)
      {
        assert n in Live(before, names).Keys;
        assert n in Live(before, names) && SameAt(before, after, n);
      }
    }
  }

  lemma NotReadyStaysDrifted(c: Codec, s: State, env: Env)
    requires Invariant(c, false, s) && !InStep(s) && !Prepare(s.provider, s.cluster, s.recon, env).0
    ensures !InStep(s.(recon := Prepare(s.provider, s.cluster, s.recon, env).1))
  {
    hide StandsFor;
    var spec, recon := s.provider.spec, s.recon.GetOr(INITIAL);
    var reset := Reset(spec, recon, s.cluster);
    assert reset.secrets.Keys == if spec.secret.None? then {} else recon.secrets.Keys;
    assert NamesToCollect(spec, reset) == NamesToCollect(spec, recon);
  }

  lemma PreparedDriftsAlike(c: Codec, s: State, env: Env)
    requires Invariant(c, false, s) && s.provider.spec.secret.Some?
    requires Prepare(s.provider, s.cluster, s.recon, env).0 && Prepare(s.provider, s.cluster, s.recon, env).1.Some?
    ensures var before, recon := s.recon.GetOr(INITIAL), Prepare(s.provider, s.cluster, s.recon, env).1.value;
            && recon.generation == before.generation && recon.annotations == before.annotations
            && recon.secrets.Keys == before.secrets.Keys && Existing(s, recon) == Existing(s, before)
            && (NoSecretDrift(recon, Existing(s, recon)) <==> NoSecretDrift(before, Existing(s, before)))
            && (NoSecretDrift(recon, Existing(s, recon)) ==> recon.secrets == before.secrets)
            && (recon.generation == s.provider.generation ==>
                  s.recon.Some? && s.provider.spec.secret.value.target in recon.secrets)
  {
    hide Prepare, Reset, Invariant, NoSecretDrift, Existing;
    var spec, before := s.provider.spec, s.recon.GetOr(INITIAL);
    var recon := Prepare(s.provider, s.cluster, s.recon, env).1.value;
    PreparedIsReset(s, env);
    ResetDriftsAlike(s, before, recon);
    KnownTracksTarget(c, s);
    assert TargetTracked(spec, before) ==> TargetTracked(spec, recon);
  }

  lemma PreparedIsReset(s: State, env: Env)
    requires Prepare(s.provider, s.cluster, s.recon, env).0 && Prepare(s.provider, s.cluster, s.recon, env).1.Some?
    ensures var before, recon := s.recon.GetOr(INITIAL), Prepare(s.provider, s.cluster, s.recon, env).1.value;
            && recon.secrets == Reset(s.provider.spec, before, s.cluster).secrets
            && recon.generation == before.generation && recon.annotations == before.annotations
  {
  }

  lemma ResetDriftsAlike(s: State, before: Recon, recon: Recon)
    requires s.provider.spec.secret.Some? && recon.secrets == Reset(s.provider.spec, before, s.cluster).secrets
    ensures recon.secrets.Keys == before.secrets.Keys && Existing(s, recon) == Existing(s, before)
    ensures NoSecretDrift(recon, Existing(s, recon)) <==> NoSecretDrift(before, Existing(s, before))
    ensures NoSecretDrift(recon, Existing(s, recon)) ==> recon.secrets == before.secrets
  {
    var existing := Existing(s, before);
    assert recon.secrets.Keys == before.secrets.Keys;
    assert NamesToCollect(s.provider.spec, recon) == NamesToCollect(s.provider.spec, before);
    forall n | existing.Keys == before.secrets.Keys && n in before.secrets
      ensures n in s.cluster.secrets && recon.secrets[n] == before.secrets[n]
    {
      assert n in existing.Keys;
    }
  }

  predicate TargetTracked(spec: Spec, recon: Recon) {
    spec.secret.Some? && spec.secret.value.target in recon.secrets.Keys
  }

  lemma KnownTracksTarget(c: Codec, s: State)
    requires Invariant(c, false, s) && s.provider.spec.secret.Some?
    ensures s.recon.GetOr(INITIAL).generation == s.provider.generation ==>
              s.recon.Some? && TargetTracked(s.provider.spec, s.recon.value)
  {
    hide NothingLost;
  }

  lemma StopsBeforeSync(c: Codec, s: State, env: Env, start: Store, recon: Recon)
    requires Prepared(c, false, s, env, start, recon) && LoadsInFull(s, recon)
    requires recon.generation == s.provider.generation ==> TracksTarget(s.provider.spec, recon.secrets)
    ensures var run := PopulateAndWrite(c, s, env, recon).run;
            !PopulateAndWrite(c, s, env, recon).Go? ==> !InStep(Stopped(s, run))
  {
    hide PopulateSettings, WriteConfigMap, Invariant, ShouldReconcile;
    var existing := Live(s.cluster, NamesToCollect(s.provider.spec, recon));
    var v, w := PopulateFacts(c, false, s, env, start, recon, existing);
    var populated := Populating(c, s, env, recon);
    DriftDetectionIsExact(s.provider, recon, OptionalConfigMap(s.cluster, s.provider.spec.configMapName), s.cluster);
    FailedPutDrifts(c, s.provider, env, populated.run);
    RecordedMapIsOlder(c, s, env, start, recon);
  }

  lemma FailedPutDrifts(c: Codec, provider: Provider, env: Env, run: Run)
    ensures var name, step := provider.spec.configMapName, WriteConfigMap(c, provider, env, run);
            !step.Go? ==>
              && step.run.recon == run.recon && step.run.cluster.secrets == run.cluster.secrets
              && (step.run.cluster == run.cluster
                  || (name in step.run.cluster.configMaps
                      && step.run.cluster.configMaps[name].version == run.cluster.nextVersion))
  {
    hide ShouldCreateOrUpdateConfigMap;
  }

  lemma RecordedMapIsOlder(c: Codec, s: State, env: Env, start: Store, recon: Recon)
    requires Prepared(c, false, s, env, start, recon)
    ensures recon.configMapVersion.Some? ==> recon.configMapVersion.value < s.cluster.nextVersion
  {
    hide StandsFor;
  }

  lemma WrittenMatches(c: Codec, s: State, env: Env, start: Store, recon: Recon)
    requires Prepared(c, false, s, env, start, recon) && PopulateAndWrite(c, s, env, recon).Go?
    ensures var name, run := s.provider.spec.configMapName, PopulateAndWrite(c, s, env, recon).run;
            && name in run.cluster.configMaps
            && run.recon.configMapVersion == Some(run.cluster.configMaps[name].version)
  {
    hide PopulateAndWrite, Reflects, FullData, TracksSelected, SentinelsHalfway;
    var v, w := PopulateAndWriteFacts(c, false, s, env, start, recon);
  }

  /** In step, told from the parts. */
  lemma InStepParts(s: State, recon: Recon, cluster: Cluster)
    requires s.provider.spec.secret.Some?
    ensures InStep(s.(recon := Some(recon), cluster := cluster))
            <==> && recon.generation == s.provider.generation && recon.annotations == s.provider.annotations
                 && s.provider.spec.configMapName in cluster.configMaps
                 && recon.configMapVersion == Some(cluster.configMaps[s.provider.spec.configMapName].version)
                 && NoSecretDrift(recon, Live(cluster, NamesToCollect(s.provider.spec, recon)))
  {
    hide NoSecretDrift;
  }

  /** What a sync of a full load touches among the tracked Secrets. */
  lemma SyncTouchesTracked(c: Codec, s: State, env: Env, recon: Recon, run: Run, n: string)
    requires env.keyValuesFetched < |s.store.keyValues| && s.recon == Some(recon) && ListsKeys(env)
    requires ReadyToSync(s, recon, run) && run.options.secretSettingPopulated && s.provider.spec.secret.Some?
    requires run.settings.metadata.Own?
    requires run.settings.secrets == LoadedSecrets(c, s.provider.spec, env, s.store.keyValues[env.keyValuesFetched])
    ensures var content := s.store.keyValues[env.keyValuesFetched];
            var step := SyncSecrets(c, s.provider, env, Existing(s, recon), run);
            var touches := NewNamesRead(c, s, env,
                                        content) && Touches(Effective(LoadCalls(c, s, env, content), env.fault), n);
            && step.run.recon == run.recon
            && (touches ==> n !in step.run.cluster.secrets || NewAt(run.cluster, step.run.cluster, n))
            && (!touches ==> SameAt(run.cluster, step.run.cluster, n))
  {
    hide SyncSecrets, SyncCalls, Effective, NewAt, Existing, LoadedSecrets, Reads, ReadyToSync;
    var content := s.store.keyValues[env.keyValuesFetched];
    ExistingIs(s, recon);
    SameCluster(s, recon, run);
    assert ReadsNew(s.provider, env, Existing(s, recon), run) <==> NewNamesRead(c, s, env, content);
    CollectedIsLive(c, s, env, recon, run, content);
    if ReadsNew(s.provider, env, Existing(s, recon), run) {
      SyncTouches(c, s, env, recon, run, n);
    } else {
      UnreadStops(c, s.provider, env, Existing(s, recon), run);
    }
  }

  lemma SameCluster(s: State, recon: Recon, run: Run)
    requires ReadyToSync(s, recon, run)
    ensures run.cluster.secrets == s.cluster.secrets && run.recon.secrets == recon.secrets
  {
  }

  lemma UnreadStops(c: Codec, provider: Provider, env: Env, existing: map<string, Secret>, run: Run)
    requires ListsKeys(env) && run.options.secretSettingPopulated && !ReadsNew(provider, env, existing, run)
    ensures SyncSecrets(c, provider, env, existing, run) == Stop(run)
  {
  }

  lemma CollectedIsLive(c: Codec, s: State, env: Env, recon: Recon, run: Run, content: Content)
    requires s.recon == Some(recon) && run.cluster.secrets == s.cluster.secrets
    requires run.settings.secrets == LoadedSecrets(c, s.provider.spec, env, content)
    ensures Collected(Existing(s, recon), run) == Live(s.cluster, LoadedNames(c, s, env, content))
  {
    hide LoadedSecrets;
  }

  lemma SyncStopsInStepExactly(c: Codec, s: State, env: Env, start: Store, recon: Recon)
    requires Prepared(c, false, s, env, start, recon) && LoadsInFull(s, recon) && s.provider.spec.secret.Some?
    requires VersionsKnown(recon.secrets, s.cluster.nextVersion)
    requires recon.generation == s.provider.generation ==> s.provider.spec.secret.value.target in recon.secrets
    requires PopulateAndWrite(c, s, env, recon).Go?
    ensures var written, content := PopulateAndWrite(c, s, env, recon), s.store.keyValues[env.keyValuesFetched];
            var run := SyncSecrets(c, s.provider, env, Existing(s, recon), written.run).run;
            && SameRecord(run.recon, recon)
            && (InStep(Stopped(s, run)) <==>
                  && recon.generation == s.provider.generation && recon.annotations == s.provider.annotations
                  && NoSecretDrift(recon, Existing(s, recon)) && !TouchesTracked(c, s, env, content))
            && (!TouchesTracked(c, s, env, content) ==> forall n ::
                  n in recon.secrets ==> SameAt(s.cluster, run.cluster, n))
  {
    hide PopulateAndWrite, SyncSecrets, Invariant, ReadyToSync, Existing, InStep, NoSecretDrift, LoadCalls,
         LoadedSecrets,
         NewNamesRead, Effective, NewAt, SameAt, KeepsCore, ShouldReconcile;
    var content := s.store.keyValues[env.keyValuesFetched];
    var written := PopulateAndWrite(c, s, env, recon).run;
    PopulateAndWriteIsReady(c, s, env, start, recon);
    PopulateAndWriteKeepsRecord(c, s, env, start, recon);
    FullLoadPopulates(c, s, env, start, recon);
    WrittenMatches(c, s, env, start, recon);
    ExistingIs(s, recon);
    var run := SyncSecrets(c, s.provider, env, Existing(s, recon), written).run;
    SyncSecretsKeepsCore(c, s.provider, env, Existing(s, recon), written);
    KeepsCoreConfigMaps(written, run);
    SyncTouchesTracked(c, s, env, recon, written, "");
    assert SameRecord(run.recon, recon) && run.recon.configMapVersion == written.recon.configMapVersion;
    var touched := set n | n in recon.secrets && NewNamesRead(c, s, env,
                                                              content) && Touches(Effective(LoadCalls(c, s, env,
                                                                  content), env.fault), n);
    forall n | n in recon.secrets
      ensures n in touched ==> n !in run.cluster.secrets || NewAt(written.cluster, run.cluster, n)
      ensures n !in touched ==> SameAt(written.cluster, run.cluster, n)
    {
      SyncTouchesTracked(c, s, env, recon, written, n);
    }
    InStepParts(s, run.recon, run.cluster);
    if recon.generation == s.provider.generation {
      TouchedSecretsDrift(s.provider.spec, recon, written.cluster, run.cluster, touched);
      SameDrift(s.provider.spec, recon, run.recon, run.cluster);
      SameLive(s.cluster, written.cluster, NamesToCollect(s.provider.spec, recon));
    }
    SameSecretsSame(s.cluster, written.cluster, run.cluster, recon.secrets.Keys);
  }

  lemma SameDrift(spec: Spec, a: Recon, b: Recon, cluster: Cluster)
    requires a.secrets == b.secrets
    ensures NoSecretDrift(a, Live(cluster, NamesToCollect(spec, a))) <==>
              NoSecretDrift(b, Live(cluster, NamesToCollect(spec, b)))
  {
  }

  lemma SameLive(a: Cluster, b: Cluster, names: set<string>)
    requires a.secrets == b.secrets
    ensures Live(a, names) == Live(b, names)
  {
  }

  lemma SameSecretsSame(a: Cluster, b: Cluster, d: Cluster, names: set<string>)
    requires a.secrets == b.secrets
    ensures forall n :: n in names && SameAt(b, d, n) ==> SameAt(a, d, n)
  {
  }

  lemma SameTouches(c: Codec, s: State, recon: Recon, env: Env, content: Content)
    requires ListsKeys(env) && s.provider.spec.secret.Some? && s.recon.Some?
             && s.recon.value.secrets.Keys == recon.secrets.Keys
    ensures TouchesTracked(c, s.(recon := Some(recon)), env, content) == TouchesTracked(c, s, env, content)
  {
    hide Effective, LoadCalls, NewNamesRead;
    SameCalls(c, s, recon, env, content);
  }

  lemma SameCalls(c: Codec, s: State, recon: Recon, env: Env, content: Content)
    requires ListsKeys(env) && s.provider.spec.secret.Some? && s.recon.GetOr(INITIAL).secrets.Keys == recon.secrets.Keys
    ensures var t := s.(recon := Some(recon));
            && LoadCalls(c, t, env, content) == LoadCalls(c, s, env, content)
            && NewNamesRead(c, t, env, content) == NewNamesRead(c, s, env, content)
  {
    hide SyncCalls, LoadedSecrets, Reads;
    var t := s.(recon := Some(recon));
    assert NamesToCollect(t.provider.spec, t.recon.value) == NamesToCollect(s.provider.spec, s.recon.GetOr(INITIAL));
    assert LoadedNames(c, t, env, content) == LoadedNames(c, s, env, content);
  }

  // ---------------------------------------------------------------- main results

  /** A full load that stops leaves nothing that would call for another, although it has not
      brought the Secrets along, exactly when the ConfigMap alone had drifted, the load gets past
      writing it, and then stops before any tracked Secret is written or deleted. The tracked
      Secrets then are as they were before the load. */
  lemma StoppedLoadIsInStepExactly(c: Codec, s: State, env: Env, store: Store)
    requires Inverse(c) && Invariant(c, false, s) && Recorded(s) && ValidEnv(env, s.store, store)
    requires s.provider.spec.secret.Some? && !InStep(s)
    ensures var t, content, r :=
      s.(store := store), store.keyValues[env.keyValuesFetched], Reconcile(c, s.(store := store), env);
            r.outcome.Failed? || r.outcome.Panicked? ==>
              && (InStep(r.state) <==>
                    && Prepare(s.provider, s.cluster, s.recon, env).0 && ConfigMapAloneDrifted(s)
                    && ConfigMapGoesThrough(c, t, env) && !TouchesTracked(c, t, env, content))
              && (InStep(r.state) ==>
                    && r.state.recon.value.secrets == s.recon.value.secrets
                    && forall n :: n in s.recon.value.secrets ==> SameAt(s.cluster, r.state.cluster, n))
  {
    hide PopulateAndWrite, SyncSecrets, Prepare, Invariant, Prepared, Existing, InStep, NoSecretDrift, TouchesTracked,
         ConfigMapGoesThrough, ShouldReconcile, SameAt, ReadyToSync;
    var (ready, recon) := Prepare(s.provider, s.cluster, s.recon, env);
    var t := s.(store := store);
    var r := Reconcile(c, t, env);
    if r.outcome.Failed? || r.outcome.Panicked? {
      if ready {
        PreparedLoadStops(c, s, env, store);
      } else {
        NotReadyStaysDrifted(c, s, env);
        InStepAnyStore(s.(recon := recon), store, r.state.running);
      }
    }
  }

  lemma InStepAnyStore(s: State, store: Store, running: bool)
    ensures InStep(s.(store := store, running := running)) <==> InStep(s)
  {
  }

  lemma PreparedLoadStops(c: Codec, s: State, env: Env, store: Store)
    requires Inverse(c) && Invariant(c, false, s) && Recorded(s) && ValidEnv(env, s.store, store)
    requires s.provider.spec.secret.Some? && !InStep(s) && Prepare(s.provider, s.cluster, s.recon, env).0
    requires Reconcile(c, s.(store := store), env).outcome.Failed?
             || Reconcile(c, s.(store := store), env).outcome.Panicked?
    ensures var t, content, r :=
      s.(store := store), store.keyValues[env.keyValuesFetched], Reconcile(c, s.(store := store), env);
            && (InStep(r.state) <==> ConfigMapAloneDrifted(s) && ConfigMapGoesThrough(c, t, env) && !TouchesTracked(c,
                t, env, content))
            && (InStep(r.state) ==>
                  && r.state.recon.value.secrets == s.recon.value.secrets
                  && forall n :: n in s.recon.value.secrets ==> SameAt(s.cluster, r.state.cluster, n))
  {
    hide PopulateAndWrite, SyncSecrets, Prepare, Invariant, Prepared, Existing, InStep, NoSecretDrift, TouchesTracked,
         ConfigMapGoesThrough, ShouldReconcile, SameAt, ReadyToSync;
    var t, recon, content :=
      s.(store := store), Prepare(s.provider, s.cluster, s.recon, env).1, store.keyValues[env.keyValuesFetched];
    var r := Reconcile(c, t, env);
    assert Prepare(s.provider, s.cluster, s.recon, env) == (true, recon);
    MiddleFacts(c, s, env, store, recon);
    PreparedDrift(c, s, env, recon);
    PreparedDriftsAlike(c, s, env);
    PrepareIsKnown(s, env);
    var prepared := t.(recon := recon);
    assert Existing(prepared, recon.value) == Existing(s, recon.value) by { SameExisting(s, prepared, recon.value); }
    ExistingIs(prepared, recon.value);
    FullLoadWritesMap(c, prepared, env, s.store, recon.value);
    MapGoesAlike(c, t, recon, env);
    var written := PopulateAndWrite(c, prepared, env, recon.value);
    if !written.Go? {
      TargetIsTracked(c, s, env);
      StopsBeforeSync(c, prepared, env, s.store, recon.value);
      InStepAnyStore(Stopped(prepared, written.run), store, r.state.running);
    } else {
      SyncStopsInStepExactly(c, prepared, env, s.store, recon.value);
      var run := SyncSecrets(c, s.provider, env, Existing(prepared, recon.value), written.run).run;
      InStepAnyStore(Stopped(prepared, run), store, r.state.running);
      if s.recon.Some? {
        SameTouches(c, t, recon.value, env, content);
      }
    }
  }

  lemma SameExisting(a: State, b: State, recon: Recon)
    requires a.cluster == b.cluster && a.provider == b.provider
    ensures Existing(a, recon) == Existing(b, recon)
  {
  }

  lemma MapGoesAlike(c: Codec, s: State, recon: Option<Recon>, env: Env)
    requires env.keyValuesFetched < |s.store.keyValues| && env.featureFlagsFetched < |s.store.featureFlags|
    ensures ConfigMapGoesThrough(c, s.(recon := recon), env) == ConfigMapGoesThrough(c, s, env)
  {
    hide LoadEnding, FullData, ShouldCreateOrUpdateConfigMap;
  }

  lemma TargetIsTracked(c: Codec, s: State, env: Env)
    requires Invariant(c, false, s) && s.provider.spec.secret.Some?
    requires Prepare(s.provider, s.cluster, s.recon, env).0 && Prepare(s.provider, s.cluster, s.recon, env).1.Some?
    ensures var recon := Prepare(s.provider, s.cluster, s.recon, env).1.value;
            recon.generation == s.provider.generation ==> TracksTarget(s.provider.spec, recon.secrets)
  {
    PrepareKeepsInvariant(c, false, s, env);
  }

  lemma SyncGoesExactly(c: Codec, s: State, env: Env, recon: Recon, run: Run)
    requires env.keyValuesFetched < |s.store.keyValues| && s.recon == Some(recon) && ListsKeys(env)
    requires ReadyToSync(s, recon, run) && run.options.secretSettingPopulated && s.provider.spec.secret.Some?
    requires run.settings.metadata.Own?
    requires run.settings.secrets == LoadedSecrets(c, s.provider.spec, env, s.store.keyValues[env.keyValuesFetched])
    ensures var content := s.store.keyValues[env.keyValuesFetched];
            SyncSecrets(c, s.provider, env, Existing(s, recon), run).Go? <==>
              NewNamesRead(c, s, env, content) && AllFine(LoadCalls(c, s, env, content), env.fault)
  {
    hide SyncSecrets, SyncCalls, Effective, AllFine, Existing, LoadedSecrets, Reads, ReadyToSync;
    ExistingIs(s, recon);
    SameCluster(s, recon, run);
    assert ReadsNew(s.provider, env, Existing(s, recon), run)
           <==> NewNamesRead(c, s, env, s.store.keyValues[env.keyValuesFetched]);
    CollectedIsLive(c, s, env, recon, run, s.store.keyValues[env.keyValuesFetched]);
    if ReadsNew(s.provider, env, Existing(s, recon), run) {
      SyncTouches(c, s, env, recon, run, "");
    } else {
      UnreadStops(c, s.provider, env, Existing(s, recon), run);
    }
  }

  /** A full load is done exactly when all that exists can be read and taken over, the store
      gives a document, and none of the writes and deletions that it needs fails. */
  lemma FullLoadIsDoneExactly(c: Codec, s: State, env: Env, store: Store)
    requires Inverse(c) && Invariant(c, false, s) && ValidEnv(env, s.store, store) && !InStep(s)
    ensures var t, content := s.(store := store), store.keyValues[env.keyValuesFetched];
            Reconcile(c, t, env).outcome.Done? <==>
              && !s.running && ValidSpec(s.provider.spec) && Prepare(s.provider, s.cluster, s.recon, env).0
              && ConfigMapGoesThrough(c, t, env)
              && (s.provider.spec.secret.Some? ==>
                    NewNamesRead(c, t, env, content) && AllFine(LoadCalls(c, t, env, content), env.fault))
  {
    hide PopulateAndWrite, SyncSecrets, Prepare, Invariant, Prepared, Existing, InStep, ConfigMapGoesThrough,
         ShouldReconcile,
         ReadyToSync, LoadedSecrets, LoadCalls, NewNamesRead, AllFine;
    var (ready, recon) := Prepare(s.provider, s.cluster, s.recon, env);
    if !s.running && ValidSpec(s.provider.spec) && ready {
      MiddleFacts(c, s, env, store, recon);
      PreparedDrift(c, s, env, recon);
      var prepared := s.(store := store, recon := recon);
      ExistingIs(prepared, recon.value);
      MapGoesAlike(c, s.(store := store), recon, env);
      FullLoadWritesMap(c, prepared, env, s.store, recon.value);
      var written := PopulateAndWrite(c, prepared, env, recon.value);
      if written.Go? {
        if s.provider.spec.secret.Some? {
          PreparedDriftsAlike(c, s, env);
          FullLoadPopulates(c, prepared, env, s.store, recon.value);
          SyncGoesExactly(c, prepared, env, recon.value, written.run);
          SameCalls(c, s.(store := store), recon.value, env, store.keyValues[env.keyValuesFetched]);
        } else {
          NothingToExpel(c, prepared, env, recon.value, written.run);
        }
      }
    }
  }

  lemma NothingToExpel(c: Codec, s: State, env: Env, recon: Recon, run: Run)
    requires ReadyToSync(s, recon, run) && s.provider.spec.secret.None? && ListsKeys(env)
    ensures SyncSecrets(c, s.provider, env, Existing(s, recon), run) == Go(run)
  {
    var existing := Existing(s, recon);
    assert existing == map[];
    assert Lists(env.order(existing.Keys), existing.Keys);
    ListsNothing(env.order(existing.Keys), existing.Keys);
  }

  // ---------------------------------------------------------------- for good

  /** Such a load even leaves the system at rest. */
  lemma StoppedInStepIsAtRest(c: Codec, s: State, env: Env, store: Store)
    requires Inverse(c) && Invariant(c, false, s) && Recorded(s) && ValidEnv(env, s.store, store)
    requires s.provider.spec.secret.Some? && !InStep(s)
    ensures var r := Reconcile(c, s.(store := store), env);
            r.outcome.Failed? && InStep(r.state) ==> AtRest(r.state)
  {
    hide PopulateAndWrite, SyncSecrets, Prepare, Invariant, Prepared, Existing, InStep, NoSecretDrift, TouchesTracked,
         ConfigMapGoesThrough, ShouldReconcile, ReadyToSync, WithDeadlines, KeepsCore;
    var (ready, recon) := Prepare(s.provider, s.cluster, s.recon, env);
    var r := Reconcile(c, s.(store := store), env);
    if r.outcome.Failed? && InStep(r.state) {
      StoppedLoadIsInStepExactly(c, s, env, store);
      var prepared := s.(store := store, recon := recon);
      assert Prepare(s.provider, s.cluster, s.recon, env) == (true, recon);
      MiddleFacts(c, s, env, store, recon);
      PreparedDrift(c, s, env, recon);
      PrepareFacts(s.provider, s.cluster, s.recon, env);
      PrepareChecksOwners(s.provider, s.cluster, s.recon, env);
      MapGoesAlike(c, s.(store := store), recon, env);
      FullLoadWritesMap(c, prepared, env, s.store, recon.value);
      PopulateAndWriteSettles(c, prepared, env, s.store, recon.value);
      WrittenConfigMapIsOwned(c, prepared, env, s.store, recon.value);
      ExistingIs(prepared, recon.value);
      PreparedDriftsAlike(c, s, env);
      PrepareIsKnown(s, env);
      SyncStopsInStepExactly(c, prepared, env, s.store, recon.value);
      var written := PopulateAndWrite(c, prepared, env, recon.value).run;
      var run := SyncSecrets(c, s.provider, env, Existing(prepared, recon.value), written).run;
      SyncSecretsKeepsCore(c, s.provider, env, Existing(prepared, recon.value), written);
      KeepsCoreConfigMaps(written, run);
      ClearedByLoad(c, s.provider.spec, recon.value, env, written.recon, run.recon) by { KeepsCoreRecon(written, run); }
      OwnsWhatIsKept(s, r.state, recon.value);
    }
  }

  lemma KeepsCoreRecon(before: Run, after: Run)
    requires KeepsCore(before, after)
    ensures after.recon == before.recon.(secrets := after.recon.secrets)
  {
  }

  lemma ClearedByLoad(c: Codec, spec: Spec, recon: Recon, env: Env, written: Recon, after: Recon)
    requires written == WithDeadlines(spec, recon, env, true).(configMapVersion := written.configMapVersion)
    requires after == written.(secrets := after.secrets)
    ensures ClearedWhenDisabled(spec, after)
  {
    assert after.nextKeyValue == written.nextKeyValue == WithDeadlines(spec, recon, env, true).nextKeyValue;
    assert after.nextFeatureFlag == written.nextFeatureFlag == WithDeadlines(spec, recon, env, true).nextFeatureFlag;
    assert after.nextSecret == written.nextSecret == WithDeadlines(spec, recon, env, true).nextSecret;
  }

  lemma OwnsWhatIsKept(s: State, after: State, recon: Recon)
    requires s.recon.Some? && after.recon.Some? && after.provider == s.provider && s.provider.spec.secret.Some?
    requires recon.secrets.Keys == s.recon.value.secrets.Keys == after.recon.value.secrets.Keys
    requires s.provider.spec.secret.value.target in recon.secrets
    requires forall n ::
               n in Live(s.cluster, NamesToCollect(s.provider.spec, recon)) ==>
                 Owned(s.cluster.secrets[n].owners, s.provider)
    requires ConfigMapOwned(after.cluster, s.provider)
    requires forall n :: n in s.recon.value.secrets ==> SameAt(s.cluster, after.cluster, n)
    ensures OwnsItsObjects(after)
  {
    forall n | n in NamesToCollect(s.provider.spec, after.recon.value)
      ensures OwnedIfLive(after.cluster, s.provider, n)
    {
      assert n in s.recon.value.secrets && SameAt(s.cluster, after.cluster, n);
      if n in s.cluster.secrets {
        assert n in Live(s.cluster, NamesToCollect(s.provider.spec, recon));
      }
    }
  }

  lemma UnreadableRestStays(c: Codec, s: State, env: Env)
    requires AtRest(s) && !ReadsWork(s, env)
    ensures Prepare(s.provider, s.cluster, s.recon, env) == (false, s.recon)
  {
  }

  /** Without any refresh, a system at rest stays as it is in every run of reconciles, however
      they fail, and whatever happens to the store. */
  lemma {:induction false} RestsForGood(c: Codec, s: State, events: seq<Event>, s': State)
    requires Inverse(c) && Invariant(c, false, s) && ValidSpec(s.provider.spec) && AtRest(s)
             && !AnyEnabled(s.provider.spec)
    requires Leads(c, s, events, s') && forall e :: e in events ==> e.Reconciles? || e.EditsStore?
    ensures s' == s.(store := s'.store) && Invariant(c, false, s')
    decreases events
  {
    hide Reconcile, Invariant, AtRest;
    if events == [] {
      assert s == s.(store := s.store);
    } else {
      var earlier, last := events[..|events| - 1], events[|events| - 1];
      var previous :| Leads(c, s, earlier, previous) && Allowed(previous, last) && s' == Next(c, previous, last);
      assert last in events && forall e :: e in earlier ==> e in events;
      RestsForGood(c, s, earlier, previous);
      if last.Reconciles? {
        AtRestInAnyStore(s, previous.store, last.env);
        ReconcileAtRest(c, previous, last.env, last.store);
        StoreGrows(c, false, previous, last.store);
      } else {
        StoreGrows(c, false, previous, last.store);
      }
    }
  }

  lemma ReconcileAtRest(c: Codec, s: State, env: Env, store: Store)
    requires Inverse(c) && Invariant(c, false, s) && ValidEnv(env, s.store, store) && ValidSpec(s.provider.spec)
    requires AtRest(s) && !AnyEnabled(s.provider.spec)
    ensures Reconcile(c, s.(store := store), env).state == s.(store := store)
  {
    hide Invariant, PopulateAndWrite, SyncSecrets;
    if ReadsWork(s, env) {
      hide Reconcile;
      assert NothingExamined(s.provider.spec, s.recon.value, env);
      RestDoesNothing(c, s, env, store);
    } else {
      hide Prepare;
      UnreadableRestStays(c, s, env);
    }
  }

  /** A newly selected Secret can be lost for good: the ConfigMap alone has drifted, a full load
      writes it and then cannot read, or may not take over, the new name, and no refresh is
      enabled. From then on, nothing but an edit by others makes the reconciler try again. */
  lemma NewSecretIsNeverCreated(c: Codec, s: State, env: Env, store: Store, n: string, events: seq<Event>, later: State)
    requires Inverse(c) && Invariant(c, false, s) && Recorded(s) && ValidEnv(env, s.store, store)
    requires !s.running && ValidSpec(s.provider.spec) && s.provider.spec.secret.Some? && !AnyEnabled(s.provider.spec)
    requires ConfigMapAloneDrifted(s) && Prepare(s.provider, s.cluster, s.recon, env).0
    requires ConfigMapGoesThrough(c, s.(store := store), env)
    requires n in store.keyValues[env.keyValuesFetched].references && n !in s.recon.value.secrets
    requires !Reads(env, GetNewSecret(n), SecretOwners(s.cluster, n), s.provider)
    ensures var r := Reconcile(c, s.(store := store), env);
            && r.outcome.Failed? && r.state.recon.Some? && n !in r.state.recon.value.secrets
            && (Leads(c, r.state, events, later) && (forall e :: e in events ==> e.Reconciles? || e.EditsStore?) ==>
                  && later == r.state.(store := later.store)
                  && (n !in s.cluster.secrets ==> n !in later.cluster.secrets))
  {
    hide Reconcile, Prepare, Invariant, InStep, ConfigMapGoesThrough, Effective, LoadCalls, AtRest, NoSecretDrift,
         AnyEnabled;
    var content, r := store.keyValues[env.keyValuesFetched], Reconcile(c, s.(store := store), env);
    UnreadNameStops(c, s, env, store, n);
    StoppedLoadIsInStepExactly(c, s, env, store);
    StoppedInStepIsAtRest(c, s, env, store);
    ReconcileKeepsInvariant(c, false, s, env, store);
    ReconcileKeepsProvider(c, s.(store := store), env);
    assert r.state.recon.Some? by { InStepIsKnown(r.state); }
    if Leads(c, r.state, events, later) && forall e :: e in events ==> e.Reconciles? || e.EditsStore? {
      RestsForGood(c, r.state, events, later);
    }
  }

  lemma InStepIsKnown(s: State)
    requires InStep(s)
    ensures s.recon.Some?
  {
  }

  /** A name that cannot be read stops the load before any Secret is touched. */
  lemma UnreadNameStops(c: Codec, s: State, env: Env, store: Store, n: string)
    requires Inverse(c) && Invariant(c, false, s) && ValidEnv(env, s.store, store) && !s.running
             && ValidSpec(s.provider.spec)
    requires s.provider.spec.secret.Some? && ConfigMapAloneDrifted(s) && Prepare(s.provider, s.cluster, s.recon, env).0
    requires ConfigMapGoesThrough(c, s.(store := store), env)
    requires n in store.keyValues[env.keyValuesFetched].references && n !in s.recon.value.secrets
    requires !Reads(env, GetNewSecret(n), SecretOwners(s.cluster, n), s.provider)
    ensures var r := Reconcile(c, s.(store := store), env);
            && r.outcome.Failed? && r.state.cluster.secrets == s.cluster.secrets
            && !NewNamesRead(c, s.(store := store), env, store.keyValues[env.keyValuesFetched])
  {
    hide PopulateAndWrite, SyncSecrets, Prepare, Invariant, Prepared, Existing, InStep, ConfigMapGoesThrough,
         ShouldReconcile, Reads,
         NoSecretDrift, ReadyToSync;
    var recon := Prepare(s.provider, s.cluster, s.recon, env).1;
    assert Prepare(s.provider, s.cluster, s.recon, env) == (true, recon);
    MiddleFacts(c, s, env, store, recon);
    PreparedDrift(c, s, env, recon);
    PreparedDriftsAlike(c, s, env);
    var prepared := s.(store := store, recon := recon);
    ExistingIs(prepared, recon.value);
    SameExisting(s, prepared, recon.value);
    MapGoesAlike(c, s.(store := store), recon, env);
    FullLoadWritesMap(c, prepared, env, s.store, recon.value);
    FullLoadPopulates(c, prepared, env, s.store, recon.value);
    PopulateAndWriteFrame(c, prepared, env, s.store, recon.value);
    var run := PopulateAndWrite(c, prepared, env, recon.value).run;
    assert n in run.settings.secrets;
    assert n !in Existing(prepared, recon.value) by { OnlyTrackedExist(prepared, recon.value, n); }
    UnreadStops(c, s.provider, env, Existing(prepared, recon.value), run);
  }

  lemma OnlyTrackedExist(s: State, recon: Recon, n: string)
    requires s.provider.spec.secret.Some? && s.provider.spec.secret.value.target in recon.secrets && n !in recon.secrets
    ensures n !in Existing(s, recon)
  {
  }
}
