/** The versions recorded for Secrets are versions that the cluster has given out, in every
    reachable state. */
module RecordedVersions {
  import opened TypedSetting
  import opened ReconcileTypes
  import opened Processor
  import opened Reconciler
  import opened NoLostUpdate
  import opened SecretSync
  import opened SecretGuarantees
  import opened SecretRefresh
  import opened SecretWrites
  import opened Stopping
  import opened SecretCalls

  ghost predicate VersionsKnown(secrets: map<string, Tracked>, nextVersion: nat) {
    forall n :: n in secrets && secrets[n].version.Some? ==> secrets[n].version.value < nextVersion
  }

  /** The recorded versions of Secrets have been given out. */
  ghost predicate Recorded(s: State) {
    s.recon.Some? ==> VersionsKnown(s.recon.value.secrets, s.cluster.nextVersion)
  }

  ghost predicate RunKnown(run: Run) {
    VersionsKnown(run.recon.secrets, run.cluster.nextVersion) && VersionsKnown(MetadataOf(run), run.cluster.nextVersion)
  }

  ghost predicate ExistingKnown(existing: map<string, Secret>, run: Run) {
    forall n :: n in existing ==> existing[n].version < run.cluster.nextVersion
  }

  lemma OneWriteIsKnown(c: Codec, provider: Provider, env: Env, existing: map<string, Secret>, name: string, run: Run)
    requires name in run.settings.secrets && RunKnown(run) && ExistingKnown(existing, run)
    ensures RunKnown(WriteOneSecret(c, provider, env, existing, name, run).run)
  {
    hide ShouldCreateOrUpdateSecret;
    if provider.spec.secret.Some? {
      ExistsUnlessWritten(c, provider.spec.secret.value, name, run.settings.secrets[name].data,
                          run.settings.metadata.Shared?, existing);
    }
  }

  lemma ExistsUnlessWritten(c: Codec, spec: SecretSpec, name: string, latest: Data, copied: bool,
                            existing: map<string, Secret>)
    ensures !ShouldCreateOrUpdateSecret(c, spec, name, latest, copied, SecretDataOf(existing, name)) ==>
              name in existing
  {
    hide ParsedAt;
  }

  lemma {:induction false} WritesAreKnown(c: Codec, provider: Provider, env: Env, existing: map<string, Secret>,
                                          names: seq<string>,
                                         run: Run)
    requires (forall n :: n in names ==> n in run.settings.secrets) && RunKnown(run) && ExistingKnown(existing, run)
    ensures RunKnown(WriteSecrets(c, provider, env, existing, names, run).run)
    decreases names
  {
    hide WriteOneSecret, RunKnown, KeepsCore;
    if names != [] {
      OneWriteIsKnown(c, provider, env, existing, names[0], run);
      WriteOneSecretKeepsCore(c, provider, env, existing, names[0], run);
      KeepsCoreCluster(run, WriteOneSecret(c, provider, env, existing, names[0], run).run);
      if WriteOneSecret(c, provider, env, existing, names[0], run).Go? {
        WritesAreKnown(c, provider, env, existing, names[1..],
                       WriteOneSecret(c, provider, env, existing, names[0], run).run);
      }
    }
  }

  lemma SyncIsKnown(c: Codec, s: State, env: Env, recon: Recon, run: Run)
    requires ListsKeys(env) && ReadyToSync(s, recon, run) && RunKnown(run)
    requires VersionsBounded(s.cluster) && run.cluster.nextVersion >= s.cluster.nextVersion
    ensures RunKnown(SyncSecrets(c, s.provider, env, Existing(s, recon), run).run)
  {
    hide WriteSecrets, ExpelSecrets;
    var existing := Existing(s, recon);
    var names := env.order(run.settings.secrets.Keys);
    assert Lists(names, run.settings.secrets.Keys);
    if !run.options.secretSettingPopulated {
      DeletesTouch(env, MetadataOf(run).Keys, env.order(existing.Keys), run, "");
    } else if ReadsNew(s.provider, env, existing, run) {
      var collected := Collected(existing, run);
      WritesAreKnown(c, s.provider, env, collected, names, run);
      var step := WriteSecrets(c, s.provider, env, collected, names, run);
      DeletesTouch(env, MetadataOf(step.run).Keys, env.order(collected.Keys), step.run, "");
    }
  }

  lemma LoadedIsKnown(c: Codec, s: State, env: Env, recon: Recon, run: Run)
    requires env.keyValuesFetched < |s.store.keyValues| && Sourced(c, s, env, recon, run)
             && run.recon.secrets == recon.secrets
    requires VersionsKnown(recon.secrets, run.cluster.nextVersion) && run.options.secretSettingPopulated
    ensures RunKnown(run)
  {
    hide Resolved, RefreshedSecrets;
  }

  lemma UnpopulatedKeepsRecon(c: Codec, provider: Provider, env: Env, existing: map<string, Secret>, run: Run)
    requires ListsKeys(env) && !run.options.secretSettingPopulated
    ensures var after := SyncSecrets(c, provider, env, existing, run).run;
            after.recon == run.recon && after.options == run.options
            && after.cluster.nextVersion == run.cluster.nextVersion
  {
    DeletesTouch(env, MetadataOf(run).Keys, env.order(existing.Keys), run, "");
    ExpelSecretsKeepsCore(env, MetadataOf(run).Keys, env.order(existing.Keys), run);
  }

  /** The parts of the record that populating and writing the ConfigMap leave alone. */
  ghost predicate SameRecord(a: Recon, b: Recon) {
    a.secrets == b.secrets && a.generation == b.generation && a.annotations == b.annotations
    && a.hasClientManager == b.hasClientManager
  }

  lemma PutKeepsRecord(c: Codec, provider: Provider, env: Env, run: Run)
    ensures var after := WriteConfigMap(c, provider, env, run).run;
            && SameRecord(after.recon, run.recon) && after.cluster.secrets == run.cluster.secrets
            && after.settings == run.settings && after.options == run.options
            && after.cluster.nextVersion >= run.cluster.nextVersion
  {
    hide ShouldCreateOrUpdateConfigMap;
  }

  lemma PopulateAndWriteKeepsRecord(c: Codec, s: State, env: Env, start: Store, recon: Recon)
    requires Prepared(c, false, s, env, start, recon)
    ensures var run := PopulateAndWrite(c, s, env, recon).run;
            && SameRecord(run.recon, recon) && run.cluster.secrets == s.cluster.secrets
            && run.cluster.nextVersion >= s.cluster.nextVersion
  {
    hide PopulateSettings, WriteConfigMap, Invariant;
    var existing := Live(s.cluster, NamesToCollect(s.provider.spec, recon));
    var v, w := PopulateFacts(c, false, s, env, start, recon, existing);
    PutKeepsRecord(c, s.provider, env, Populating(c, s, env, recon).run);
  }

  lemma InvariantBounds(c: Codec, s: State)
    requires Invariant(c, false, s)
    ensures VersionsBounded(s.cluster)
  {
    hide ReconInvariant;
  }

  lemma MiddleIsKnown(c: Codec, s: State, env: Env, start: Store, recon: Recon)
    requires Prepared(c, false, s, env, start, recon) && VersionsKnown(recon.secrets, s.cluster.nextVersion)
    ensures var written := PopulateAndWrite(c, s, env, recon);
            && VersionsKnown(written.run.recon.secrets, written.run.cluster.nextVersion)
            && (written.Go? ==>
                  && (written.run.options.secretSettingPopulated ==> RunKnown(written.run))
                  && var after := SyncSecrets(c, s.provider, env, Existing(s, recon), written.run).run;
                     && VersionsKnown(after.recon.secrets, after.cluster.nextVersion)
                     && (written.run.options.secretSettingPopulated ==> RunKnown(after))
                     && after.options == written.run.options)
  {
    hide PopulateAndWrite, SyncSecrets, Invariant, ReadyToSync, Existing, Sourced, KeepsCore;
    PopulateAndWriteIsReady(c, s, env, start, recon);
    PopulateAndWriteIsSourced(c, s, env, start, recon);
    PopulateAndWriteKeepsRecord(c, s, env, start, recon);
    InvariantBounds(c, s.(store := start));
    var written := PopulateAndWrite(c, s, env, recon);
    if written.Go? {
      SyncSecretsKeepsCore(c, s.provider, env, Existing(s, recon), written.run);
      KeepsCoreOptions(written.run, SyncSecrets(c, s.provider, env, Existing(s, recon), written.run).run);
      if written.run.options.secretSettingPopulated {
        LoadedIsKnown(c, s, env, recon, written.run);
        SyncIsKnown(c, s, env, recon, written.run);
      } else {
        UnpopulatedKeepsRecon(c, s.provider, env, Existing(s, recon), written.run);
      }
    }
  }

  /** One reconcile records no version that has not been given out. */
  lemma ReconcileKeepsRecorded(c: Codec, s: State, env: Env, store: Store)
    requires Inverse(c) && Invariant(c, false, s) && ValidEnv(env, s.store, store) && Recorded(s)
    ensures Recorded(Reconcile(c, s.(store := store), env).state)
  {
    hide PopulateAndWrite, SyncSecrets, Invariant, Prepared, Existing, Prepare;
    var (ready, recon) := Prepare(s.provider, s.cluster, s.recon, env);
    PrepareIsKnown(s, env);
    if ValidSpec(s.provider.spec) && ready {
      MiddleFacts(c, s, env, store, recon);
      var prepared := s.(store := store, recon := recon);
      MiddleIsKnown(c, prepared, env, s.store, recon.value);
      ExistingIs(prepared, recon.value);
    }
  }

  lemma PrepareIsKnown(s: State, env: Env)
    requires Recorded(s)
    ensures Recorded(s.(recon := Prepare(s.provider, s.cluster, s.recon, env).1))
  {
  }

  lemma EditKeepsRecorded(c: Codec, s: State, e: Event)
    requires Recorded(s) && Allowed(s, e) && !e.Reconciles?
    ensures Recorded(Next(c, s, e))
  {
  }

  lemma {:induction false} ReachableIsRecorded(c: Codec, start: State, events: seq<Event>, s: State)
    requires Inverse(c) && Reaches(c, start, events, s)
    ensures Recorded(s)
    decreases events
  {
    hide Recorded, Reconcile;
    if events == [] {
      assert Recorded(s) by { StartIsRecorded(s); }
    } else {
      var earlier, last := events[..|events| - 1], events[|events| - 1];
      var previous :| Reaches(c, start, earlier, previous) && Allowed(previous, last) && s == Next(c, previous, last);
      ReachableIsRecorded(c, start, earlier, previous);
      if last.Reconciles? {
        ReachableIsInvariant(c, false, start, earlier, previous);
        ReconcileKeepsRecorded(c, previous, last.env, last.store);
      } else {
        EditKeepsRecorded(c, previous, last);
      }
    }
  }

  lemma StartIsRecorded(s: State)
    requires Starts(s)
    ensures Recorded(s)
  {
  }
}
