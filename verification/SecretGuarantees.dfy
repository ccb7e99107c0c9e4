/** What a whole reconcile guarantees about Secrets and about what others own: it never misses
    metadata, it conserves the Secrets it tracks, and it leaves foreign objects alone. */
module SecretGuarantees {
  import opened Wrappers
  import opened TypedSetting
  import opened ReconcileTypes
  import opened Reconciler
  import opened NoLostUpdate
  import opened SecretSync

  /** What the middle part of a reconcile hands over to the writing of Secrets. */
  lemma MiddleFacts(c: Codec, s: State, env: Env, store: Store, recon: Option<Recon>)
    requires Inverse(c) && Invariant(c, false, s) && ValidEnv(env, s.store, store) && ValidSpec(s.provider.spec)
    requires Prepare(s.provider, s.cluster, s.recon, env) == (true, recon)
    ensures recon.Some?
    ensures var prepared := s.(store := store, recon := recon);
            var written := PopulateAndWrite(c, s.(store := store), env, recon.value);
            && Prepared(c, false, prepared, env, s.store, recon.value)
            && written == PopulateAndWrite(c, prepared, env, recon.value)
            && !written.Crash?
            && (written.Go? ==> ReadyToSync(prepared, recon.value, written.run))
  {
    hide PopulateAndWrite, Prepare, Invariant, ReadyToSync, Written;
    var t, prepared := s.(store := store), s.(store := store, recon := recon);
    PrepareKeepsInvariant(c, false, s, env);
    assert prepared.(store := s.store) == s.(recon := recon);
    assert prepared == t.(recon := recon);
    assert Prepared(c, false, prepared, env, s.store, recon.value);
    var v, w := PopulateAndWriteFacts(c, false, prepared, env, s.store, recon.value);
    PopulateAndWriteIgnoresRecon(c, t, env, recon);
    PopulateAndWriteIsReady(c, prepared, env, s.store, recon.value);
  }

  /** No reconcile dereferences missing metadata: every populated Secret has its entry. */
  lemma MetadataIsNeverMissing(c: Codec, s: State, env: Env, store: Store)
    requires Inverse(c) && Invariant(c, false, s) && ValidEnv(env, s.store, store)
    ensures !Reconcile(c, s.(store := store), env).outcome.Crashed?
  {
    hide PopulateAndWrite, SyncSecrets, Prepare, Invariant, ReadyToSync, Prepared, Existing;
    var (ready, recon) := Prepare(s.provider, s.cluster, s.recon, env);
    if ValidSpec(s.provider.spec) && ready {
      MiddleFacts(c, s, env, store, recon);
      var prepared := s.(store := store, recon := recon);
      var written := PopulateAndWrite(c, s.(store := store), env, recon.value);
      if written.Go? {
        ExistingIs(prepared, recon.value);
        SyncNeverCrashes(c, prepared, env, recon.value, written.run);
      }
    }
  }

  lemma SyncNeverCrashes(c: Codec, s: State, env: Env, recon: Recon, run: Run)
    requires ListsKeys(env) && ReadyToSync(s, recon, run)
    ensures !SyncSecrets(c, s.provider, env, Existing(s, recon), run).Crash?
  {
    hide WriteSecrets, ExpelSecrets, KeepsCore, Existing;
    if run.options.secretSettingPopulated {
      SyncConservesSecrets(c, s, env, recon, run);
    } else {
      ExpelSecretsKeepsCore(env, MetadataOf(run).Keys, env.order(Existing(s, recon).Keys), run);
    }
  }

  /** Conservation: after a reconcile that is done, the Secrets that exist among the target and
      the previously tracked names are exactly the tracked ones, and each tracked Secret exists
      at its recorded version. */
  lemma SecretsAreConserved(c: Codec, s: State, env: Env, store: Store)
    requires Inverse(c) && Invariant(c, false, s) && ValidEnv(env, s.store, store)
    ensures var r := Reconcile(c, s.(store := store), env);
            r.outcome.Done? && s.provider.spec.secret.Some? ==>
              && r.state.recon.Some?
              && SecretsTracked(NamesToCollect(s.provider.spec, s.recon.GetOr(INITIAL)), r.state.recon.value.secrets,
                                r.state.cluster)
  {
    hide PopulateAndWrite, SyncSecrets, Prepare, Invariant, ReadyToSync, Prepared, Existing, SecretsTracked;
    var (ready, recon) := Prepare(s.provider, s.cluster, s.recon, env);
    if ValidSpec(s.provider.spec) && ready && s.provider.spec.secret.Some? {
      MiddleFacts(c, s, env, store, recon);
      PrepareChecksOwners(s.provider, s.cluster, s.recon, env);
      var prepared := s.(store := store, recon := recon);
      var written := PopulateAndWrite(c, s.(store := store), env, recon.value);
      if written.Go? {
        ExistingIs(prepared, recon.value);
        SyncedSecretsAreTracked(c, prepared, env, recon.value, written.run);
      }
    }
  }

  // ---------------------------------------------------------------- what others own

  /** A Secret or ConfigMap is as before. */
  ghost predicate SameSecret(before: Cluster, after: Cluster, n: string) {
    n in before.secrets && n in after.secrets && after.secrets[n] == before.secrets[n]
  }

  ghost predicate SameConfigMap(before: Cluster, after: Cluster, n: string) {
    n in before.configMaps && n in after.configMaps && after.configMaps[n] == before.configMaps[n]
  }

  /** No reconcile, however it ends, changes or deletes a Secret that the provider does not own. */
  lemma ForeignSecretsAreLeftAlone(c: Codec, s: State, env: Env, store: Store, n: string)
    requires Inverse(c) && Invariant(c, false, s) && ValidEnv(env, s.store, store)
    requires n in s.cluster.secrets && !Owned(s.cluster.secrets[n].owners, s.provider)
    ensures SameSecret(s.cluster, Reconcile(c, s.(store := store), env).state.cluster, n)
  {
    hide PopulateAndWrite, SyncSecrets, Prepare, Invariant, ReadyToSync, Prepared, Existing;
    var (ready, recon) := Prepare(s.provider, s.cluster, s.recon, env);
    if ValidSpec(s.provider.spec) && ready {
      MiddleFacts(c, s, env, store, recon);
      var prepared := s.(store := store, recon := recon);
      PopulateAndWriteFrame(c, prepared, env, s.store, recon.value);
      var written := PopulateAndWrite(c, s.(store := store), env, recon.value);
      if written.Go? {
        ExistingIs(prepared, recon.value);
        PrepareMakesExistingOwned(s, prepared, env, recon);
        SyncTouchesOnlyOwned(c, prepared, env, recon.value, written.run, n);
      }
    }
  }

  lemma PrepareMakesExistingOwned(s: State, prepared: State, env: Env, recon: Option<Recon>)
    requires Prepare(s.provider, s.cluster, s.recon, env) == (true, recon) && recon.Some?
    requires prepared.provider == s.provider && prepared.cluster == s.cluster
    ensures ExistingOwned(prepared, recon.value)
  {
    hide Prepare;
    PrepareChecksOwners(s.provider, s.cluster, s.recon, env);
  }

  /** No reconcile, however it ends, changes or deletes a ConfigMap that the provider does not
      own, or that is not its target. */
  lemma ForeignConfigMapsAreLeftAlone(c: Codec, s: State, env: Env, store: Store, n: string)
    requires Inverse(c) && Invariant(c, false, s) && ValidEnv(env, s.store, store)
    requires n in s.cluster.configMaps
    requires !Owned(s.cluster.configMaps[n].owners, s.provider) || n != s.provider.spec.configMapName
    ensures SameConfigMap(s.cluster, Reconcile(c, s.(store := store), env).state.cluster, n)
  {
    hide PopulateAndWrite, SyncSecrets, Prepare, Invariant, ReadyToSync, Prepared, KeepsCore;
    var (ready, recon) := Prepare(s.provider, s.cluster, s.recon, env);
    if ValidSpec(s.provider.spec) && ready {
      MiddleFacts(c, s, env, store, recon);
      PrepareChecksOwners(s.provider, s.cluster, s.recon, env);
      var prepared := s.(store := store, recon := recon);
      PopulateAndWriteFrame(c, prepared, env, s.store, recon.value);
      var written := PopulateAndWrite(c, s.(store := store), env, recon.value);
      if written.Go? {
        var existing := Live(s.cluster, NamesToCollect(s.provider.spec, recon.value));
        SyncSecretsKeepsCore(c, s.provider, env, existing, written.run);
        KeepsCoreConfigMaps(written.run, SyncSecrets(c, s.provider, env, existing, written.run).run);
      }
    }
  }

  lemma KeepsCoreConfigMaps(before: Run, after: Run)
    requires KeepsCore(before, after)
    ensures after.cluster.configMaps == before.cluster.configMaps
  {
  }
}
