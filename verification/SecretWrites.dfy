/** The data that a reconcile leaves in each Secret, exactly: that of the full load or of the
    refresh, or the old data where its write is left out. */
module SecretWrites {
  import opened Wrappers
  import opened TypedSetting
  import opened ReconcileTypes
  import opened Processor
  import opened Reconciler
  import opened NoLostUpdate
  import opened Rotation
  import opened SecretSync
  import opened SecretGuarantees
  import opened Deadlines
  import opened Convergence
  import opened SecretRefresh
  import opened Repair
  import SettingLoader

  function SecretDataOf(secrets: map<string, Secret>, name: string): Option<Data> {
    if name in secrets then Some(secrets[name].data) else None
  }

  /** The data that is live after the latest data is written, or its write left out. */
  function WrittenSecret(c: Codec, spec: SecretSpec, name: string, latest: Data, copied: bool,
                         existing: Option<Data>): Data {
    if existing.Some? && !ShouldCreateOrUpdateSecret(c, spec, name, latest, copied, existing) then existing.value
      else latest
  }

  /** The live data becomes the latest exactly when the Secret is no document, or there was
      none, or its document was another, or nothing at all was different. */
  lemma WrittenSecretIsLatestExactly(c: Codec, spec: SecretSpec, name: string, latest: Data, copied: bool,
                                     existing: Option<Data>)
    ensures WrittenSecret(c, spec, name, latest, copied, existing) == latest <==>
              || existing.None? || existing.value == latest || name != spec.target || !IsDocument(spec.secretData)
              || ParsedAt(c, existing.value, spec.secretData.value) != ParsedAt(c, latest, spec.secretData.value)
  {
    hide ParsedAt;
  }

  // ---------------------------------------------------------------- writing and expelling

  ghost predicate HasData(run: Run, n: string, data: Data) {
    n in run.cluster.secrets && run.cluster.secrets[n].data == data
  }

  lemma WriteOneSecretWrites(c: Codec, provider: Provider, env: Env, existing: map<string, Secret>, name: string,
                             run: Run)
    requires name in run.settings.secrets && name in MetadataOf(run) && provider.spec.secret.Some?
    requires Current(existing, run, [name])
    ensures var step := WriteOneSecret(c, provider, env, existing, name, run);
            && step.run.settings.metadata.Shared? == run.settings.metadata.Shared?
            && (step.Go? ==>
                  HasData(step.run, name, WrittenSecret(c, provider.spec.secret.value, name,
                                                        run.settings.secrets[name].data,
                                                                   run.settings.metadata.Shared?,
                                                                     SecretDataOf(existing, name))))
  {
    hide ParsedAt;
    assert name in [name];
  }

  lemma UntouchedKeepsData(before: Run, after: Run, n: string, data: Data)
    requires HasData(before, n, data) && Untouched(before, after, n)
    ensures HasData(after, n, data)
  {
  }

  /** When writing goes through, whatever the map order, each listed Secret has its data. */
  lemma {:induction false} WriteSecretsWrites(c: Codec, provider: Provider, env: Env, existing: map<string, Secret>,
                                             names: seq<string>, run: Run, n: string)
    requires Distinct(names) && provider.spec.secret.Some? && Current(existing, run, names) && n in names
    requires forall m :: m in names ==> m in run.settings.secrets && m in MetadataOf(run)
    ensures var step := WriteSecrets(c, provider, env, existing, names, run);
            step.Go? ==> HasData(step.run, n,
                                 WrittenSecret(c, provider.spec.secret.value, n, run.settings.secrets[n].data,
                                                            run.settings.metadata.Shared?, SecretDataOf(existing, n)))
    decreases names
  {
    hide WriteOneSecret, KeepsCore, Current, Untouched, HasData, WrittenSecret;
    assert Current(existing, run, [names[0]]) by { CurrentHead(existing, run, names); }
    WriteOneSecretWrites(c, provider, env, existing, names[0], run);
    OneWriteKeepsCurrent(c, provider, env, existing, names, run);
    var step := WriteOneSecret(c, provider, env, existing, names[0], run);
    WriteOneSecretKeepsCore(c, provider, env, existing, names[0], run);
    KeepsCoreSecrets(run, step.run);
    if step.Go? {
      var after := WriteSecrets(c, provider, env, existing, names[1..], step.run);
      assert forall i :: 0 <= i < |names[1..]| ==> names[1..][i] == names[i + 1];
      if n == names[0] {
        assert n !in names[1..];
        WriteSecretsAt(c, provider, env, existing, names[1..], step.run, n);
        UntouchedKeepsData(step.run, after.run, n,
                           WrittenSecret(c, provider.spec.secret.value, n, run.settings.secrets[n].data,
                                         run.settings.metadata.Shared?, SecretDataOf(existing, n)));
      } else {
        WriteSecretsWrites(c, provider, env, existing, names[1..], step.run, n);
      }
    }
  }

  lemma CollectedData(s: State, recon: Recon, run: Run, n: string)
    requires run.cluster.secrets == s.cluster.secrets && n in run.settings.secrets
    ensures SecretDataOf(Collected(Existing(s, recon), run), n) == SecretDataOf(s.cluster.secrets, n)
  {
  }

  lemma SyncWrites(c: Codec, s: State, env: Env, recon: Recon, run: Run, n: string)
    requires ListsKeys(env) && ReadyToSync(s, recon, run) && run.options.secretSettingPopulated
    requires n in run.settings.secrets && s.provider.spec.secret.Some?
    ensures var step := SyncSecrets(c, s.provider, env, Existing(s, recon), run);
            step.Go? ==> HasData(step.run, n,
                                 WrittenSecret(c, s.provider.spec.secret.value, n, run.settings.secrets[n].data,
                                                            run.settings.metadata.Shared?,
                                                              SecretDataOf(s.cluster.secrets, n)))
  {
    hide WriteSecrets, ExpelSecrets, Current, Untouched, KeepsCore, Existing, HasData, WrittenSecret, SecretDataOf;
    var existing := Existing(s, recon);
    var names := env.order(run.settings.secrets.Keys);
    assert Lists(names, run.settings.secrets.Keys);
    if ReadsNew(s.provider, env, existing, run) {
      var collected := Collected(existing, run);
      CollectedIsCurrent(s, recon, run, names);
      CollectedData(s, recon, run, n);
      var step := WriteSecrets(c, s.provider, env, collected, names, run);
      WriteSecretsKeepsCore(c, s.provider, env, collected, names, run);
      KeepsCoreKeys(run, step.run);
      WriteSecretsWrites(c, s.provider, env, collected, names, run, n);
      if step.Go? {
        var keep, listed := MetadataOf(step.run).Keys, env.order(collected.Keys);
        ExpelSecretsAt(env, keep, listed, step.run, n);
        UntouchedKeepsData(step.run, ExpelSecrets(env, keep, listed, step.run).run, n,
                           WrittenSecret(c, s.provider.spec.secret.value, n, run.settings.secrets[n].data,
                                         run.settings.metadata.Shared?, SecretDataOf(s.cluster.secrets, n)));
      }
    }
  }

  /** What a reconcile that is done leaves in each populated Secret. */
  lemma DoneWrites(c: Codec, s: State, env: Env, store: Store, n: string)
    requires Inverse(c) && Invariant(c, false, s) && ValidEnv(env, s.store, store)
    requires ValidSpec(s.provider.spec) && s.provider.spec.secret.Some?
    requires Reconcile(c, s.(store := store), env).outcome.Done?
    ensures Prepare(s.provider, s.cluster, s.recon, env).1.Some?
    ensures var run, r := Populated(c, s, env, store), Reconcile(c, s.(store := store), env).state;
            run.options.secretSettingPopulated && n in run.settings.secrets ==>
              SecretDataOf(r.cluster.secrets, n)
              == Some(WrittenSecret(c, s.provider.spec.secret.value, n, run.settings.secrets[n].data,
                                    run.settings.metadata.Shared?, SecretDataOf(s.cluster.secrets, n)))
  {
    hide PopulateAndWrite, SyncSecrets, Prepare, Invariant, ReadyToSync, Prepared, Existing, KeepsCore, WrittenSecret;
    var (ready, recon) := Prepare(s.provider, s.cluster, s.recon, env);
    MiddleFacts(c, s, env, store, recon);
    var prepared := s.(store := store, recon := recon);
    var run := Populated(c, s, env, store);
    ExistingIs(prepared, recon.value);
    if run.options.secretSettingPopulated && n in run.settings.secrets {
      ListsKeysIsValid(env, s.store, store);
      SyncWrites(c, prepared, env, recon.value, run, n);
    }
  }

  // ---------------------------------------------------------------- main results

  /** A Secret that is the target or has references: its kind, and its references if there are any. */
  function Wanted(target: string, references: map<string, SettingLoader.TargetSecret>, n: string): Tracked
    requires n == target || n in references
  {
    Tracked(if n == target then SettingLoader.Opaque else references[n].kind,
            if n in references then references[n].references else map[], None)
  }

  lemma SelectedAreWanted(spec: Spec, references: map<string, SettingLoader.TargetSecret>, n: string)
    requires spec.secret.Some? && (n == spec.secret.value.target || n in references)
    ensures n in SelectedMetadata(spec, references)
    ensures SelectedMetadata(spec, references)[n] == Wanted(spec.secret.value.target, references, n)
  {
    SelectedAreTracked(spec, references);
  }

  /** What a full load leaves in a selected Secret, exactly. */
  ghost predicate WrittenAsLoaded(c: Codec, spec: Spec, env: Env, references: map<string, SettingLoader.TargetSecret>,
                                  before: Cluster, after: Cluster, n: string)
    requires spec.secret.Some? && (n == spec.secret.value.target || n in references)
  {
    var latest := ResolvedData(c, env, SecretOptions(spec), n, Wanted(spec.secret.value.target, references, n));
    SecretDataOf(after.secrets, n)
      == Some(WrittenSecret(c, spec.secret.value, n, latest, false, SecretDataOf(before.secrets, n)))
  }

  lemma FullLoadWritesSecrets(c: Codec, s: State, env: Env, store: Store, n: string)
    requires Inverse(c) && Invariant(c, false, s) && ValidEnv(env, s.store, store) && s.provider.spec.secret.Some?
    requires n == s.provider.spec.secret.value.target || n in store.keyValues[env.keyValuesFetched].references
    ensures var r := Reconcile(c, s.(store := store), env);
            !InStep(s) && r.outcome.Done? ==>
              WrittenAsLoaded(c, s.provider.spec, env, store.keyValues[env.keyValuesFetched].references, s.cluster,
                              r.state.cluster, n)
  {
    hide Reconcile, Invariant, InStep, Prepare, Populated, LiveAsPopulated, WrittenSecret, SecretDataOf, IsRefreshed,
         IsExamined, Sourced, SelectedMetadata, ResolvedData;
    SelectedAreWanted(s.provider.spec, store.keyValues[env.keyValuesFetched].references, n);
    if !InStep(s) && Reconcile(c, s.(store := store), env).outcome.Done? {
      DoneMeansValid(c, s, env, store);
      DonePopulates(c, s, env, store);
      DoneWrites(c, s, env, store, n);
      var recon := Prepare(s.provider, s.cluster, s.recon, env).1;
      var run := Populated(c, s, env, store);
      FullPopulates(c, s.(store := store, recon := recon), env, recon.value, run);
      FullIsLoaded(c, s.(store := store, recon := recon), env, recon.value, run);
    }
  }

  /** A full load gives a selected Secret the data that is due to it exactly when the Secret is no
      document at the target, or did not exist, or its document had drifted, or nothing had. */
  lemma SecretIsRepairedExactly(c: Codec, s: State, env: Env, store: Store, n: string)
    requires Inverse(c) && Invariant(c, false, s) && ValidEnv(env, s.store, store) && s.provider.spec.secret.Some?
    requires n == s.provider.spec.secret.value.target || n in store.keyValues[env.keyValuesFetched].references
    ensures !InStep(s) && Reconcile(c, s.(store := store), env).outcome.Done? ==>
              var spec, r := s.provider.spec, Reconcile(c, s.(store := store), env).state;
              var wanted := Wanted(spec.secret.value.target, store.keyValues[env.keyValuesFetched].references, n);
              var before, latest :=
                SecretDataOf(s.cluster.secrets, n), ResolvedData(c, env, SecretOptions(spec), n, wanted);
              HoldsReferences(c, env, spec.secret.value.secretData, n, wanted, latest) &&
              (SecretDataOf(r.cluster.secrets, n) == Some(latest) <==>
                || before.None? || before.value == latest || n != spec.secret.value.target
                || !IsDocument(SecretOptions(spec))
                || ParsedAt(c, before.value, SecretOptions(spec).value)
                   != ParsedAt(c, latest, SecretOptions(spec).value))
  {
    hide Reconcile, Invariant, InStep, WrittenSecret, SecretDataOf, ResolvedData, ParsedAt, HoldsReferences;
    FullLoadWritesSecrets(c, s, env, store, n);
    var spec := s.provider.spec;
    var wanted := Wanted(spec.secret.value.target, store.keyValues[env.keyValuesFetched].references, n);
    ResolvedHolds(c, env, spec.secret.value.secretData, n, wanted);
    WrittenSecretIsLatestExactly(c, s.provider.spec.secret.value, n,
                                 ResolvedData(c, env, SecretOptions(s.provider.spec), n, wanted),
                                 false, SecretDataOf(s.cluster.secrets, n));
  }

  /** What a due secret refresh leaves in a tracked Secret, exactly. */
  lemma RefreshWritesSecrets(c: Codec, s: State, env: Env, store: Store, n: string)
    requires Inverse(c) && Invariant(c, false, s) && ValidEnv(env, s.store, store) && s.provider.spec.secret.Some?
    requires InStep(s) && IsExamined(s.provider.spec, s.recon.value.nextSecret, env, false, SecretReference)
    requires !IsExamined(s.provider.spec, s.recon.value.nextKeyValue, env, false, KeyValue)
    requires n in s.recon.value.secrets
    ensures Reconcile(c, s.(store := store), env).outcome.Done? ==>
              var before, r := s.recon.value.secrets, Reconcile(c, s.(store := store), env).state;
              var refreshed := RefreshedSecrets(c, s.provider.spec, env, before, Live(s.cluster, before.Keys));
              && n in s.cluster.secrets && n in refreshed
              && SecretDataOf(r.cluster.secrets, n)
                 == Some(WrittenSecret(c, s.provider.spec.secret.value, n, refreshed[n].data, true,
                                       Some(s.cluster.secrets[n].data)))
  {
    hide PopulateAndWrite, SyncSecrets, Prepare, Invariant, Sourced, LiveAsPopulated, InStep, IsExamined, Populated,
         ReadsNew, RefreshedSecrets, WrittenSecret, Existing;
    if Reconcile(c, s.(store := store), env).outcome.Done? {
      var (ready, recon) := Prepare(s.provider, s.cluster, s.recon, env);
      PrepareFacts(s.provider, s.cluster, s.recon, env);
      DonePopulates(c, s, env, store);
      DoneWrites(c, s, env, store, n);
      PreparedSecrets(s, env, recon);
      PopulatedKeepsTracked(c, s, env, store, recon);
      assert recon.value.nextSecret == DeadlineOf(recon.value, SecretReference)
             == DeadlineOf(s.recon.GetOr(INITIAL), SecretReference);
      assert recon.value.nextKeyValue == DeadlineOf(recon.value, KeyValue)
             == DeadlineOf(s.recon.GetOr(INITIAL), KeyValue);
      InStepKeys(s);
      ExistingKeys(s, store, recon);
      RefreshedKeys(c, s.provider.spec, env, recon.value.secrets, Existing(s, s.recon.value));
      LiveHas(s.cluster, s.recon.value.secrets.Keys, n);
    }
  }

  /** A due secret refresh reaches the live Secret under the same condition. */
  lemma SecretIsRefreshedExactly(c: Codec, s: State, env: Env, store: Store, n: string)
    requires Inverse(c) && Invariant(c, false, s) && ValidEnv(env, s.store, store) && s.provider.spec.secret.Some?
    requires InStep(s) && IsExamined(s.provider.spec, s.recon.value.nextSecret, env, false, SecretReference)
    requires !IsExamined(s.provider.spec, s.recon.value.nextKeyValue, env, false, KeyValue)
    requires n in s.recon.value.secrets
    ensures Reconcile(c, s.(store := store), env).outcome.Done? ==>
              var spec, tracked, r :=
                s.provider.spec, s.recon.value.secrets, Reconcile(c, s.(store := store), env).state;
              var refreshed := RefreshedSecrets(c, spec, env, tracked, Live(s.cluster, tracked.Keys));
              && n in s.cluster.secrets && n in refreshed
              && var before, latest := s.cluster.secrets[n].data, refreshed[n].data;
                 SecretDataOf(r.cluster.secrets, n) == Some(latest) <==>
                   || before == latest || n != spec.secret.value.target || !IsDocument(SecretOptions(spec))
                   || ParsedAt(c, before, SecretOptions(spec).value) != ParsedAt(c, latest, SecretOptions(spec).value)
  {
    hide Reconcile, Invariant, InStep, IsExamined, RefreshedSecrets, WrittenSecret, SecretDataOf, ParsedAt;
    InStepKeys(s);
    RefreshWritesSecrets(c, s, env, store, n);
    if Reconcile(c, s.(store := store), env).outcome.Done? {
      var tracked := s.recon.value.secrets;
      var refreshed := RefreshedSecrets(c, s.provider.spec, env, tracked, Live(s.cluster, tracked.Keys));
      WrittenSecretIsLatestExactly(c, s.provider.spec.secret.value, n, refreshed[n].data, true,
                                   Some(s.cluster.secrets[n].data));
    }
  }

  lemma ExistingKeys(s: State, store: Store, recon: Option<Recon>)
    requires recon.Some? && s.recon.Some? && recon.value.secrets == s.recon.value.secrets
    ensures Existing(s.(store := store, recon := recon), recon.value) == Existing(s, s.recon.value)
  {
  }

  lemma LiveHas(cluster: Cluster, names: set<string>, n: string)
    requires n in names && Live(cluster, names).Keys == names
    ensures n in cluster.secrets && Live(cluster, names)[n] == cluster.secrets[n]
  {
    assert n in Live(cluster, names);
  }
}
