/** What a reconcile that is done leaves behind: the state is in step with the cluster, the
    deadlines are set, and as long as nothing changes and no deadline passes, further
    reconciles do nothing. */
module Convergence {
  import opened Wrappers
  import opened TypedSetting
  import opened ReconcileTypes
  import opened Processor
  import opened Reconciler
  import opened NoLostUpdate
  import opened SecretSync
  import opened SecretGuarantees
  import opened Deadlines

  // ---------------------------------------------------------------- in step

  /** The state is in step with provider and cluster: nothing calls for a full load. */
  ghost predicate InStep(s: State) {
    s.recon.Some? &&
    NoDrift(s.provider, s.recon.value, OptionalConfigMap(s.cluster, s.provider.spec.configMapName),
            Live(s.cluster, NamesToCollect(s.provider.spec, s.recon.value)))
  }

  /** In step, and with no page changed, exactly the Secrets that the current store selects are
      live, each at its recorded version and tracked with its current references. */
  lemma SelectedAreLive(c: Codec, start: State, events: seq<Event>, s: State, n: string)
    requires Inverse(c) && Reaches(c, start, events, s) && InStep(s) && s.provider.spec.secret.Some?
    requires s.store.keyValues != [] && !PagesChanged(s.recon.value.keyValueETags, |s.store.keyValues| - 1)
    ensures var tracked, last := s.recon.value.secrets, s.store.keyValues[|s.store.keyValues| - 1];
            && TracksReferences(s.provider.spec.secret.value.target, last.references, tracked)
            && (n in tracked ==>
                  && n in s.cluster.secrets && tracked[n].version == Some(s.cluster.secrets[n].version))
  {
    hide Reaches, TracksReferences;
    NoReferenceIsLost(c, start, events, s);
    var recon := s.recon.value;
    var existing := Live(s.cluster, NamesToCollect(s.provider.spec, recon));
    assert n in recon.secrets ==> n in existing.Keys;
  }

  /** Exactly the Secrets that version u of the store selects are live, each at its recorded
      version and tracked with the references of then. */
  ghost predicate LiveAsSelectedAt(s: State, u: nat)
    requires s.recon.Some?
  {
    && SelectedAt(s.provider.spec, s.store, s.recon.value.secrets, u)
    && forall n :: n in s.recon.value.secrets ==>
         n in s.cluster.secrets && s.recon.value.secrets[n].version == Some(s.cluster.secrets[n].version)
  }

  /** In step, with monitored sentinels that have been still, and with none of them changed, the
      live Secrets are those that some store version selects at which the sentinels were already
      the current ones. */
  lemma AnnouncedAreLive(c: Codec, start: State, events: seq<Event>, s: State)
    requires Inverse(c) && Reaches(c, start, events, s) && InStep(s) && AllStill(events)
    requires s.provider.spec.secret.Some? && KeyValueRefreshEnabled(s.provider.spec) && s.provider.spec.monitoring
    requires s.store.keyValues != []
    requires s.recon.value.sentinelETags == Some(SentinelAt(s.store, |s.store.keyValues| - 1))
    ensures exists u: nat ::
              LiveAsSelectedAt(s, u) && SentinelAt(s.store, u) == SentinelAt(s.store, |s.store.keyValues| - 1)
  {
    hide Reaches, SelectedAt;
    NoAnnouncedReferenceIsLost(c, start, events, s);
    var u: nat :| SelectedAt(s.provider.spec, s.store, s.recon.value.secrets, u)
                  && SentinelAt(s.store, u) == SentinelAt(s.store, |s.store.keyValues| - 1);
    var recon := s.recon.value;
    var existing := Live(s.cluster, NamesToCollect(s.provider.spec, recon));
    assert forall n :: n in recon.secrets ==> n in existing.Keys;
    assert LiveAsSelectedAt(s, u);
  }

  /** Whether a full load is due is decided by the state before the reconcile. */
  lemma PreparedDrift(c: Codec, s: State, env: Env, recon: Option<Recon>)
    requires Invariant(c, false, s) && Prepare(s.provider, s.cluster, s.recon, env) == (true, recon) && recon.Some?
    ensures ShouldReconcile(s.provider, recon.value, OptionalConfigMap(s.cluster, s.provider.spec.configMapName),
                            Live(s.cluster, NamesToCollect(s.provider.spec, recon.value)))
            == !InStep(s)
  {
    hide ShouldReconcile, StandsFor;
    var spec, before := s.provider.spec, s.recon.GetOr(INITIAL);
    var reset := Reset(spec, before, s.cluster);
    assert TracksTargetWhenCurrent(s.provider, before);
    var names := NamesToCollect(spec, before);
    assert reset.secrets.Keys == if spec.secret.None? then {} else before.secrets.Keys;
    assert NamesToCollect(spec, recon.value) == names;
    DriftDetectionIsExact(s.provider, recon.value, OptionalConfigMap(s.cluster, spec.configMapName), s.cluster);
    var existing := Live(s.cluster, names);
    if existing.Keys == before.secrets.Keys {
      assert forall n :: n in before.secrets ==> n in existing.Keys && n in s.cluster.secrets;
    }
  }

  ghost predicate TracksTargetWhenCurrent(provider: Provider, recon: Recon) {
    recon.generation == provider.generation ==> TracksTarget(provider.spec, recon.secrets)
  }

  // ---------------------------------------------------------------- the state at the end

  /** The deadlines and the bookkeeping of a reconcile that is done. */
  ghost predicate Settled(s: State, env: Env, after: Recon) {
    && (forall kind :: DeadlineOf(after, kind)
                       == NewDeadline(s.provider.spec, DeadlineOf(s.recon.GetOr(INITIAL), kind), env, !InStep(s), kind))
    && after.generation == s.provider.generation && after.annotations == s.provider.annotations
    && after.hasClientManager
    && (s.provider.spec.secret.None? ==> after.secrets == map[])
  }

  lemma PrepareFacts(provider: Provider, cluster: Cluster, before: Option<Recon>, env: Env)
    ensures var (ready, recon) := Prepare(provider, cluster, before, env);
            ready ==>
              && recon.Some? && recon.value.hasClientManager
              && (forall kind :: DeadlineOf(recon.value, kind) == DeadlineOf(before.GetOr(INITIAL), kind))
              && (provider.spec.secret.None? ==> recon.value.secrets == map[])
  {
  }

  lemma PopulateAndWriteSettles(c: Codec, s: State, env: Env, start: Store, recon: Recon)
    requires Prepared(c, false, s, env, start, recon)
    ensures var spec, step := s.provider.spec, PopulateAndWrite(c, s, env, recon);
            var full := ShouldReconcile(s.provider, recon, OptionalConfigMap(s.cluster, spec.configMapName),
                                        Live(s.cluster, NamesToCollect(spec, recon)));
            step.Go? ==>
              && step.run.recon == WithDeadlines(spec, recon, env, full).(configMapVersion :=
                    step.run.recon.configMapVersion)
              && AnyRefreshEnabled(step.run.options) == AnyEnabled(spec)
  {
    hide PopulateSettings, ShouldReconcile, WithDeadlines, ShouldCreateOrUpdateConfigMap, Invariant, AnyEnabled;
    PopulateSetsDeadlines(c, s.provider, s.store, env, OptionalConfigMap(s.cluster, s.provider.spec.configMapName),
                          Live(s.cluster, NamesToCollect(s.provider.spec, recon)), StartRun(recon, s.cluster));
  }

  lemma FinishSettles(provider: Provider, env: Env, recon: Recon, full: bool, before: Run, after: Run)
    requires before.recon == WithDeadlines(provider.spec, recon, env, full).(configMapVersion :=
          before.recon.configMapVersion)
    requires KeepsCore(before, after) && recon.hasClientManager
    requires provider.spec.secret.None? ==> recon.secrets == map[] && !before.options.secretSettingPopulated
    ensures var finished := Finish(provider, env, after).0;
            && (forall kind ::
                  DeadlineOf(finished, kind) == NewDeadline(provider.spec, DeadlineOf(recon, kind), env, full, kind))
            && finished.generation == provider.generation && finished.annotations == provider.annotations
            && finished.hasClientManager
            && (provider.spec.secret.None? ==> finished.secrets == map[])
    ensures after.options == before.options
  {
    hide NewDeadline;
    if provider.spec.secret.None? {
      assert after.recon.secrets.Keys == {};
      assert after.recon.secrets == map[];
    }
  }

  /** A reconcile that is done has set the deadlines of what it examined, cleared those that are
      disabled, kept the rest, and comes back by the earliest. */
  lemma DoneSettles(c: Codec, s: State, env: Env, store: Store)
    requires Inverse(c) && Invariant(c, false, s) && ValidEnv(env, s.store, store)
    ensures var r := Reconcile(c, s.(store := store), env);
            r.outcome.Done? ==>
              && r.state.recon.Some? && Settled(s, env, r.state.recon.value)
              && r.outcome.requeueAfter
                 == if AnyEnabled(s.provider.spec) then Some(RequeueAfter(r.state.recon.value, env.finish)) else None
  {
    hide PopulateAndWrite, SyncSecrets, Prepare, Invariant, ReadyToSync, Prepared, InStep, KeepsCore, WithDeadlines,
         NewDeadline, AnyEnabled, RequeueAfter, AnyRefreshEnabled, FinishedRecon, ShouldReconcile, DeadlineOf;
    var (ready, recon) := Prepare(s.provider, s.cluster, s.recon, env);
    if ValidSpec(s.provider.spec) && ready {
      PrepareFacts(s.provider, s.cluster, s.recon, env);
      MiddleFacts(c, s, env, store, recon);
      PreparedDrift(c, s, env, recon);
      var prepared := s.(store := store, recon := recon);
      PopulateAndWriteSettles(c, prepared, env, s.store, recon.value);
      var written := PopulateAndWrite(c, s.(store := store), env, recon.value);
      if written.Go? {
        var existing := Live(s.cluster, NamesToCollect(s.provider.spec, recon.value));
        var synced := SyncSecrets(c, s.provider, env, existing, written.run);
        SyncSecretsKeepsCore(c, s.provider, env, existing, written.run);
        if s.provider.spec.secret.None? {
          NotPopulatedWithoutSecret(prepared, recon.value, written.run);
        }
        FinishSettles(s.provider, env, recon.value, !InStep(s), written.run, synced.run);
      }
    }
  }

  lemma NotPopulatedWithoutSecret(s: State, recon: Recon, run: Run)
    requires ReadyToSync(s, recon, run) && s.provider.spec.secret.None?
    ensures !run.options.secretSettingPopulated
  {
  }

  /** After a reconcile that is done, nothing calls for a full load. */
  lemma DoneIsInStep(c: Codec, s: State, env: Env, store: Store)
    requires Inverse(c) && Invariant(c, false, s) && ValidEnv(env, s.store, store)
    ensures var r := Reconcile(c, s.(store := store), env);
            r.outcome.Done? ==> InStep(r.state)
  {
    hide Reconcile, Invariant, NothingLost, NewDeadline, DeadlineOf, RequeueAfter, InStep;
    ReconcileKeepsInvariant(c, false, s, env, store);
    DoneSettles(c, s, env, store);
    SecretsAreConserved(c, s, env, store);
    var r := Reconcile(c, s.(store := store), env);
    if r.outcome.Done? {
      ReconcileKeepsProvider(c, s.(store := store), env);
      TracksTargetAfter(c, r.state);
      assert SettledState(r.state) by {
        assert Settled(s, env, r.state.recon.value);
      }
      SettledIsInStep(r.state, NamesToCollect(s.provider.spec, s.recon.GetOr(INITIAL)));
    }
  }

  ghost predicate SettledState(s: State) {
    && Matches(s) && s.recon.value.annotations == s.provider.annotations
  }

  lemma TracksTargetAfter(c: Codec, s: State)
    requires Invariant(c, false, s) && Matches(s)
    ensures TracksTarget(s.provider.spec, s.recon.value.secrets)
  {
    hide NothingLost;
  }

  lemma SettledIsInStep(s: State, names: set<string>)
    requires SettledState(s) && TracksTarget(s.provider.spec, s.recon.value.secrets)
    requires s.provider.spec.secret.Some? ==> SecretsTracked(names, s.recon.value.secrets, s.cluster)
    ensures InStep(s)
  {
    var recon := s.recon.value;
    var existing := Live(s.cluster, NamesToCollect(s.provider.spec, recon));
    if s.provider.spec.secret.Some? {
      assert forall n :: n in recon.secrets ==> n in s.cluster.secrets;
      assert existing.Keys == recon.secrets.Keys;
    }
  }

  lemma ReconcileKeepsProvider(c: Codec, s: State, env: Env)
    requires env.keyValuesFetched < |s.store.keyValues| && env.featureFlagsFetched < |s.store.featureFlags|
             && ListsKeys(env)
    ensures var s' := Reconcile(c, s, env).state; s'.provider == s.provider && s'.store == s.store
  {
    hide PopulateAndWrite, SyncSecrets, Prepare;
  }

  // ---------------------------------------------------------------- ownership

  ghost predicate OwnedIfLive(cluster: Cluster, provider: Provider, n: string) {
    n in cluster.secrets ==> Owned(cluster.secrets[n].owners, provider)
  }

  lemma {:induction false} WritesKeepOwned(c: Codec, provider: Provider, env: Env, existing: map<string, Secret>,
                                          names: seq<string>, run: Run, n: string)
    requires (forall m :: m in names ==> m in run.settings.secrets) && OwnedIfLive(run.cluster, provider, n)
    ensures OwnedIfLive(WriteSecrets(c, provider, env, existing, names, run).run.cluster, provider, n)
    decreases names
  {
    hide ParsedAt;
    if names != [] {
      var step := WriteOneSecret(c, provider, env, existing, names[0], run);
      assert OwnedIfLive(step.run.cluster, provider, n);
      assert step.run.settings.secrets == run.settings.secrets;
      if step.Go? {
        hide WriteOneSecret;
        WritesKeepOwned(c, provider, env, existing, names[1..], step.run, n);
      }
    }
  }

  lemma {:induction false} ExpelsKeepOwned(env: Env, keep: set<string>, names: seq<string>, run: Run,
                                           provider: Provider, n: string)
    requires OwnedIfLive(run.cluster, provider, n)
    ensures OwnedIfLive(ExpelSecrets(env, keep, names, run).run.cluster, provider, n)
    decreases names
  {
    if names != [] {
      if names[0] in keep {
        ExpelsKeepOwned(env, keep, names[1..], run, provider, n);
      } else {
        var called := Called(run, DeleteSecret(names[0]));
        var deleted := called.(cluster := run.cluster.(secrets := run.cluster.secrets - {names[0]}));
        ExpelsKeepOwned(env, keep, names[1..], deleted, provider, n);
      }
    }
  }

  /** The Secrets that are tracked in the end are the provider's own. */
  lemma SyncedAreOwned(c: Codec, s: State, env: Env, recon: Recon, run: Run, n: string)
    requires ListsKeys(env) && ReadyToSync(s, recon, run) && ExistingOwned(s, recon)
    ensures var step := SyncSecrets(c, s.provider, env, Existing(s, recon), run);
            step.Go? && s.provider.spec.secret.Some? && n in NewSecrets(step.run) ==>
              OwnedIfLive(step.run.cluster, s.provider, n)
  {
    hide WriteSecrets, ExpelSecrets, KeepsCore;
    var existing := Existing(s, recon);
    var step := SyncSecrets(c, s.provider, env, existing, run);
    SyncSecretsKeepsCore(c, s.provider, env, existing, run);
    KeepsCoreOptions(run, step.run);
    KeepsCoreKeys(run, step.run);
    if step.Go? && s.provider.spec.secret.Some? && n in NewSecrets(step.run) {
      if !run.options.secretSettingPopulated {
        assert n in existing;
      } else {
        assert n in run.settings.secrets;
        assert OwnedIfLive(run.cluster, s.provider, n);
        var names := env.order(run.settings.secrets.Keys);
        assert Lists(names, run.settings.secrets.Keys);
        var collected := Collected(existing, run);
        WritesKeepOwned(c, s.provider, env, collected, names, run, n);
        var written := WriteSecrets(c, s.provider, env, collected, names, run);
        ExpelsKeepOwned(env, MetadataOf(written.run).Keys, env.order(collected.Keys), written.run, s.provider, n);
      }
    }
  }

  lemma WrittenConfigMapIsOwned(c: Codec, s: State, env: Env, start: Store, recon: Recon)
    requires Prepared(c, false, s, env, start, recon)
    requires ConfigMapOwned(s.cluster, s.provider)
    ensures ConfigMapOwned(PopulateAndWrite(c, s, env, recon).run.cluster, s.provider)
  {
    hide PopulateSettings, ShouldCreateOrUpdateConfigMap, Invariant;
    var v, w := PopulateFacts(c, false, s, env, start, recon, Live(s.cluster, NamesToCollect(s.provider.spec, recon)));
  }

  ghost predicate ConfigMapOwned(cluster: Cluster, provider: Provider) {
    var name := provider.spec.configMapName;
    name in cluster.configMaps ==> Owned(cluster.configMaps[name].owners, provider)
  }

  /** All objects that the next reconcile looks at first are the provider's own. */
  ghost predicate OwnsItsObjects(s: State) {
    && ConfigMapOwned(s.cluster, s.provider)
    && forall n :: n in NamesToCollect(s.provider.spec, s.recon.GetOr(INITIAL)) ==> OwnedIfLive(s.cluster,
        s.provider, n)
  }

  lemma DoneOwns(c: Codec, s: State, env: Env, store: Store)
    requires Inverse(c) && Invariant(c, false, s) && ValidEnv(env, s.store, store)
    ensures var r := Reconcile(c, s.(store := store), env);
            r.outcome.Done? ==> OwnsItsObjects(r.state)
  {
    hide PopulateAndWrite, SyncSecrets, Prepare, Invariant, ReadyToSync, Prepared, Existing, KeepsCore, OwnedIfLive;
    var r := Reconcile(c, s.(store := store), env);
    if r.outcome.Done? {
      ReconcileKeepsInvariant(c, false, s, env, store);
      TracksTargetAfter(c, r.state);
      var (ready, recon) := Prepare(s.provider, s.cluster, s.recon, env);
      MiddleFacts(c, s, env, store, recon);
      PrepareChecksOwners(s.provider, s.cluster, s.recon, env);
      var prepared := s.(store := store, recon := recon);
      WrittenConfigMapIsOwned(c, prepared, env, s.store, recon.value);
      var written := PopulateAndWrite(c, s.(store := store), env, recon.value);
      var existing := Live(s.cluster, NamesToCollect(s.provider.spec, recon.value));
      SyncSecretsKeepsCore(c, s.provider, env, existing, written.run);
      KeepsCoreConfigMaps(written.run, SyncSecrets(c, s.provider, env, existing, written.run).run);
      ExistingIs(prepared, recon.value);
      PrepareMakesExistingOwned(s, prepared, env, recon);
      forall n | n in NamesToCollect(s.provider.spec, r.state.recon.value)
        ensures OwnedIfLive(r.state.cluster, s.provider, n)
      {
        SyncedAreOwned(c, prepared, env, recon.value, written.run, n);
      }
    }
  }

  // ---------------------------------------------------------------- quiescence

  /** No read of what exists fails. */
  ghost predicate ReadsWork(s: State, env: Env) {
    && env.fault(GetConfigMap) == Fine
    && forall n :: n in NamesToCollect(s.provider.spec, s.recon.GetOr(INITIAL)) ==> env.fault(GetSecret(n)) == Fine
  }

  ghost predicate ClearedWhenDisabled(spec: Spec, recon: Recon) {
    forall kind :: !IsEnabled(spec, kind) ==> DeadlineOf(recon, kind) == 0
  }

  /** Everything that a reconcile that is done leaves behind. */
  ghost predicate AtRest(s: State) {
    && !s.running && InStep(s) && OwnsItsObjects(s) && s.recon.value.hasClientManager
    && ClearedWhenDisabled(s.provider.spec, s.recon.value)
    && (s.provider.spec.secret.None? ==> s.recon.value.secrets == map[])
  }

  lemma DoneIsNotRunning(c: Codec, s: State, env: Env)
    requires env.keyValuesFetched < |s.store.keyValues| && env.featureFlagsFetched < |s.store.featureFlags|
             && ListsKeys(env)
    ensures Reconcile(c, s, env).outcome.Done? ==> !Reconcile(c, s, env).state.running
  {
    hide PopulateAndWrite, SyncSecrets, Prepare;
  }

  lemma DoneIsAtRest(c: Codec, s: State, env: Env, store: Store)
    requires Inverse(c) && Invariant(c, false, s) && ValidEnv(env, s.store, store)
    ensures var r := Reconcile(c, s.(store := store), env);
            r.outcome.Done? ==> AtRest(r.state)
  {
    hide Reconcile, Invariant, InStep, OwnsItsObjects, RequeueAfter;
    DoneIsInStep(c, s, env, store);
    DoneOwns(c, s, env, store);
    DoneSettles(c, s, env, store);
    DoneIsNotRunning(c, s.(store := store), env);
    ReconcileKeepsProvider(c, s.(store := store), env);
  }

  lemma PrepareAtRest(s: State, env: Env)
    requires AtRest(s) && ReadsWork(s, env)
    ensures s.recon.Some? && Prepare(s.provider, s.cluster, s.recon, env) == (true, s.recon)
  {
    var spec, recon := s.provider.spec, s.recon.value;
    var existing := Live(s.cluster, NamesToCollect(spec, recon));
    var reset := Reset(spec, recon, s.cluster);
    assert reset.secrets == recon.secrets by {
      if spec.secret.Some? {
        assert forall n :: n in recon.secrets ==> n in existing.Keys;
      }
    }
    assert reset == recon;
    assert forall n :: n in NamesToCollect(spec, recon) ==> OwnedIfLive(s.cluster, s.provider, n);
  }

  lemma KeptDeadlines(spec: Spec, recon: Recon, env: Env)
    requires ClearedWhenDisabled(spec, recon) && NothingExamined(spec, recon, env)
    ensures WithDeadlines(spec, recon, env, false) == recon
  {
    forall kind
      ensures NewDeadline(spec, DeadlineOf(recon, kind), env, false, kind) == DeadlineOf(recon, kind)
    {
    }
    assert DeadlineOf(recon, KeyValue) == recon.nextKeyValue;
    assert DeadlineOf(recon, FeatureFlag) == recon.nextFeatureFlag;
    assert DeadlineOf(recon, SecretReference) == recon.nextSecret;
  }

  /** At rest, and with no deadline passed, a reconcile calls nothing, writes and deletes
      nothing, and changes neither the cluster nor the state. */
  lemma RestDoesNothing(c: Codec, s: State, env: Env, store: Store)
    requires Inverse(c) && Invariant(c, false, s) && ValidEnv(env, s.store, store) && ValidSpec(s.provider.spec)
    requires AtRest(s) && ReadsWork(s, env) && NothingExamined(s.provider.spec, s.recon.value, env)
    ensures var r := Reconcile(c, s.(store := store), env);
            r.outcome.Done? && r.trace == [] && r.state == s.(store := store)
  {
    hide PopulateSettings, Prepare, Invariant, InStep, OwnsItsObjects, ShouldReconcile, WithDeadlines,
         NothingExamined;
    PrepareAtRest(s, env);
    PreparedDrift(c, s, env, s.recon);
    var recon := s.recon.value;
    var configMap := OptionalConfigMap(s.cluster, s.provider.spec.configMapName);
    var existing := Live(s.cluster, NamesToCollect(s.provider.spec, recon));
    PopulateIdles(c, s.provider, store, env, configMap, existing, recon, s.cluster);
    PopulateSetsDeadlines(c, s.provider, store, env, configMap, existing, StartRun(recon, s.cluster));
    KeptDeadlines(s.provider.spec, recon, env);
    var run := PopulateSettings(c, s.provider, store, env, configMap, existing, StartRun(recon, s.cluster)).run;
    IdleSync(c, s.provider, env, existing, run);
    IdleFinish(s, env, run);
  }

  lemma IdleSync(c: Codec, provider: Provider, env: Env, existing: map<string, Secret>, run: Run)
    requires Idle(run) && ListsKeys(env) && (provider.spec.secret.None? ==> existing == map[])
    ensures SyncSecrets(c, provider, env, existing, run) == Go(run)
  {
    assert Lists(env.order(existing.Keys), existing.Keys);
    if existing == map[] {
      ListsNothing(env.order(existing.Keys), existing.Keys);
    }
  }

  lemma ListsNothing(names: seq<string>, keys: set<string>)
    requires Lists(names, keys) && keys == {}
    ensures names == []
  {
    if names != [] {
      HeadIsListed(names, keys);
    }
  }

  lemma HeadIsListed(names: seq<string>, keys: set<string>)
    requires Lists(names, keys) && names != []
    ensures names[0] in keys
  {
  }

  lemma IdleFinish(s: State, env: Env, run: Run)
    requires Idle(run) && InStep(s) && run.recon == s.recon.value
    ensures FinishedRecon(s.provider, run) == s.recon.value
  {
  }

  /** Quiescence: after a reconcile that is done, while provider and cluster stay as they are and
      no enabled deadline has passed, the next reconcile calls no retriever function, writes and
      deletes nothing, and leaves the reconciliation state unchanged, whatever happens to the
      store. */
  lemma Quiescence(c: Codec, s: State, env: Env, store: Store, later: Store, next: Env, latest: Store)
    requires Inverse(c) && Invariant(c, false, s) && ValidEnv(env, s.store, store)
    requires Reconcile(c, s.(store := store), env).outcome.Done?
    requires store.keyValues <= later.keyValues && store.featureFlags <= later.featureFlags
             && ValidEnv(next, later, latest)
    requires var rest := Reconcile(c, s.(store := store), env).state;
             ReadsWork(rest, next) && NothingExamined(s.provider.spec, rest.recon.GetOr(INITIAL), next)
    ensures var rest := Reconcile(c, s.(store := store), env).state;
            var r := Reconcile(c, rest.(store := latest), next);
            && r.outcome.Done? && r.trace == [] && r.state.cluster == rest.cluster && r.state.recon == rest.recon
  {
    hide Reconcile, Invariant, InStep, OwnsItsObjects, NothingExamined, ReadsWork, ClearedWhenDisabled;
    var rest := Reconcile(c, s.(store := store), env).state;
    DoneIsAtRest(c, s, env, store);
    ReconcileKeepsInvariant(c, false, s, env, store);
    ReconcileKeepsProvider(c, s.(store := store), env);
    DoneMeansValid(c, s, env, store);
    StoreGrows(c, false, rest, later);
    AtRestInAnyStore(rest, later, next);
    RestDoesNothing(c, rest.(store := later), next, latest);
    assert rest.(store := later).(store := latest) == rest.(store := latest);
  }

  lemma AtRestInAnyStore(s: State, later: Store, next: Env)
    requires AtRest(s)
    ensures AtRest(s.(store := later)) && ReadsWork(s.(store := later), next) == ReadsWork(s, next)
  {
  }

  lemma DoneMeansValid(c: Codec, s: State, env: Env, store: Store)
    requires ValidEnv(env, s.store, store)
    ensures Reconcile(c, s.(store := store), env).outcome.Done? ==> ValidSpec(s.provider.spec)
  {
    hide PopulateAndWrite, SyncSecrets, Prepare;
  }
}
