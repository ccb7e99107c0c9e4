/** What a reconcile does to Secrets: drift is detected exactly, no metadata is missing, the
    wanted Secrets and only those remain, and nothing of another owner is touched. */
module SecretSync {
  import opened Clock
  import opened Wrappers
  import opened TypedSetting
  import opened ReconcileTypes
  import opened Processor
  import opened Reconciler
  import opened NoLostUpdate
  import opened Sets
  import opened Rotation
  import SettingLoader

  // ---------------------------------------------------------------- drift detection

  /** The tracked Secrets are exactly the live ones among the names, at the tracked versions. */
  ghost predicate NoSecretDrift(recon: Recon, existing: map<string, Secret>) {
    && existing.Keys == recon.secrets.Keys
    && forall n :: n in existing ==> recon.secrets[n].version == Some(existing[n].version)
  }

  /** Nothing that would call for a full load. */
  ghost predicate NoDrift(provider: Provider, recon: Recon, configMap: Option<ConfigMap>, existing: map<string,
                          Secret>) {
    && recon.generation == provider.generation && recon.annotations == provider.annotations
    && configMap.Some? && recon.configMapVersion == Some(configMap.value.version)
    && (provider.spec.secret.Some? ==> NoSecretDrift(recon, existing))
  }

  /** Drift detection is exact. The code compares the numbers of tracked and live Secrets, not
      their names; as the target Secret is always tracked, this is as good. */
  lemma DriftDetectionIsExact(provider: Provider, recon: Recon, configMap: Option<ConfigMap>, cluster: Cluster)
    requires recon.generation == provider.generation ==> TracksTarget(provider.spec, recon.secrets)
    ensures var existing := Live(cluster, NamesToCollect(provider.spec, recon));
            !ShouldReconcile(provider, recon, configMap, existing) <==> NoDrift(provider, recon, configMap, existing)
  {
    var existing := Live(cluster, NamesToCollect(provider.spec, recon));
    if recon.generation == provider.generation && provider.spec.secret.Some? {
      assert existing.Keys <= recon.secrets.Keys;
      assert |existing| == |existing.Keys| && |recon.secrets| == |recon.secrets.Keys|;
      if |existing| == |recon.secrets| {
        SubsetOfSameSize(existing.Keys, recon.secrets.Keys);
      }
      assert provider.spec.secret.value.target in recon.secrets.Keys;
    }
  }

  // ---------------------------------------------------------------- metadata

  /** The populated Secrets and their metadata have the same names. */
  ghost predicate MetadataComplete(spec: Spec, run: Run) {
    run.options.secretSettingPopulated ==> spec.secret.Some? && run.settings.secrets.Keys == MetadataOf(run).Keys
  }

  lemma LoadedIsComplete(c: Codec, spec: Spec, env: Env, data: Data, references: map<string,
                         SettingLoader.TargetSecret>, run: Run)
    requires run.settings == LoadedSettings(c, spec, env, data, references)
    ensures run.settings.secrets.Keys == MetadataOf(run).Keys
  {
    hide ResolvedData;
  }

  /** The parts of a run that MetadataComplete speaks about are the same. */
  ghost predicate SameSecrets(a: Run, b: Run) {
    && a.settings == b.settings && a.recon.secrets == b.recon.secrets
    && a.options.secretSettingPopulated == b.options.secretSettingPopulated
  }

  lemma FeatureFlagsKeepComplete(c: Codec, provider: Provider, store: Store, env: Env, data: Data, run: Run)
    requires ValidSpec(provider.spec) && env.featureFlagsFetched < |store.featureFlags|
    requires MetadataComplete(provider.spec, run) && (!run.shouldReconcile ==> !run.options.secretSettingPopulated)
    ensures var step := FeatureFlagRefresh(c, provider, store, env, data, run);
            && MetadataComplete(provider.spec, step.run)
            && (!run.shouldReconcile ==> !step.run.options.secretSettingPopulated)
            && (run.shouldReconcile ==> SameSecrets(step.run, run))
            && step.run.recon.secrets == run.recon.secrets
  {
    hide RefreshFeatureFlags;
  }

  lemma ReloadKeepsComplete(c: Codec, spec: Spec, store: Store, env: Env, data: Data, due: Time, run: Run)
    requires ValidSpec(spec) && env.keyValuesFetched < |store.keyValues| && MetadataComplete(spec, run)
    ensures MetadataComplete(spec, ReloadKeyValues(c, spec, store, env, data, due, run).run)
  {
    hide RefreshKeyValues, LoadedSettings;
    var step := ReloadKeyValues(c, spec, store, env, data, due, run);
    if step.Go? {
      var content := store.keyValues[env.keyValuesFetched];
      var latest := RefreshKeyValues(c, content.settings, data, spec.featureFlag.Some?, spec.configMapData);
      LoadedIsComplete(c, spec, env, latest.value, content.references, step.run);
    }
  }

  lemma KeyValuesKeepComplete(c: Codec, provider: Provider, store: Store, env: Env, data: Data, run: Run)
    requires ValidSpec(provider.spec) && env.keyValuesFetched < |store.keyValues|
             && MetadataComplete(provider.spec, run)
    ensures var step := KeyValueRefresh(c, provider, store, env, data, run);
            && MetadataComplete(provider.spec, step.run)
            && (run.shouldReconcile ==> SameSecrets(step.run, run))
            && step.run.recon.secrets == run.recon.secrets
  {
    hide ReloadKeyValues;
    var spec := provider.spec;
    if KeyValueRefreshEnabled(spec) && !run.shouldReconcile && env.now > run.recon.nextKeyValue {
      var enabled := WithOptions(run, run.options.(keyValueRefreshEnabled := true));
      DueKeyValuesKeepComplete(c, spec, store, env, data, DeadlineAfter(env, spec.keyValueRefresh), enabled);
    }
  }

  lemma DueKeyValuesKeepComplete(c: Codec, spec: Spec, store: Store, env: Env, data: Data, due: Time, run: Run)
    requires ValidSpec(spec) && env.keyValuesFetched < |store.keyValues| && MetadataComplete(spec, run)
    ensures var step := DueKeyValueRefresh(c, spec, store, env, data, due, run);
            MetadataComplete(spec, step.run) && step.run.recon.secrets == run.recon.secrets
  {
    var called := Called(run, if spec.monitoring then CheckSentinels else CheckKeyValueETags);
    var next := Called(WithOptions(called, CheckedOptions(spec, store, env, run.recon, run.options)),
                       RefreshKeyValueSettings);
    ReloadKeepsComplete(c, spec, store, env, run.settings.configMap.GetOr(data), due, next);
    hide RefreshKeyValues, LoadedSettings, MetadataComplete;
    assert SameSecrets(called, run) && SameSecrets(next, run);
    CompleteTransfers(spec, run, called);
    CompleteTransfers(spec, run, next);
    CompleteTransfers(spec, run, NextKeyValue(WithOptions(called,
                                                          CheckedOptions(spec, store, env, run.recon, run.options)),
                                                            due));
  }

  lemma CompleteTransfers(spec: Spec, before: Run, after: Run)
    requires MetadataComplete(spec, before) && SameSecrets(after, before)
    ensures MetadataComplete(spec, after)
  {
  }

  lemma SecretsKeepComplete(c: Codec, provider: Provider, env: Env, existing: map<string, Secret>, run: Run)
    requires MetadataComplete(provider.spec, run)
    requires run.shouldReconcile && provider.spec.secret.Some? ==> run.options.secretSettingPopulated
    requires !run.shouldReconcile && provider.spec.secret.Some? ==> existing.Keys == run.recon.secrets.Keys
    ensures var step := SecretReferenceRefresh(c, provider, env, existing, run);
            MetadataComplete(provider.spec, step.run) && step.run.recon.secrets == run.recon.secrets
  {
    hide Resolved, ToResolve;
  }

  /** The live Secrets that a reconcile looks at first. */
  function Existing(s: State, recon: Recon): map<string, Secret> {
    Live(s.cluster, NamesToCollect(s.provider.spec, recon))
  }

  /** Populated Secrets have their metadata; when nothing is populated, either no Secrets are
      wanted or the tracked ones are in step with the cluster. */
  ghost predicate ReadyToSync(s: State, recon: Recon, run: Run) {
    && MetadataComplete(s.provider.spec, run)
    && (!run.options.secretSettingPopulated && s.provider.spec.secret.Some? ==>
          NoSecretDrift(recon, Existing(s, recon)))
    && run.cluster.secrets == s.cluster.secrets && run.recon.secrets == recon.secrets
  }

  lemma PopulateIsReady(c: Codec, s: State, env: Env, start: Store, recon: Recon)
    requires Prepared(c, false, s, env, start, recon)
    ensures var existing := Existing(s, recon);
            var step := PopulateSettings(c, s.provider, s.store, env,
                                         OptionalConfigMap(s.cluster, s.provider.spec.configMapName),
                                         existing, StartRun(recon, s.cluster));
            step.Go? ==> ReadyToSync(s, recon, step.run)
  {
    hide FeatureFlagRefresh, KeyValueRefresh, SecretReferenceRefresh, ShouldReconcile, MetadataComplete, Existing,
         Invariant;
    var existing := Existing(s, recon);
    ExistingIs(s, recon);
    var v, w := PopulateFacts(c, false, s, env, start, recon, existing);
    var configMap := OptionalConfigMap(s.cluster, s.provider.spec.configMapName);
    var should := ShouldReconcile(s.provider, recon, configMap, existing);
    var data := LiveData(s.cluster, s.provider.spec.configMapName);
    var run := StartRun(recon, s.cluster).(shouldReconcile := should);
    NotDueHasNoSecretDrift(c, s, env, start, recon);
    var first := if should then FullReconciliation(c, s.provider, s.store, env, run) else Go(run);
    FirstIsComplete(c, s, env, run);
    if first.Go? {
      FeatureFlagsKeepComplete(c, s.provider, s.store, env, data, first.run);
      FeatureFlagsAdvance(c, s.provider, s.store, env, data, first.run);
      var second := FeatureFlagRefresh(c, s.provider, s.store, env, data, first.run);
      if second.Go? {
        KeyValuesKeepComplete(c, s.provider, s.store, env, data, second.run);
        KeyValuesAdvance(c, s.provider, s.store, env, data, second.run);
        var third := KeyValueRefresh(c, s.provider, s.store, env, data, second.run);
        if third.Go? {
          SecretsKeepComplete(c, s.provider, env, existing, third.run);
          SecretsPopulated(c, s.provider, env, existing, third.run);
        }
      }
    }
  }

  lemma NotDueHasNoSecretDrift(c: Codec, s: State, env: Env, start: Store, recon: Recon)
    requires Prepared(c, false, s, env, start, recon)
    ensures !ShouldReconcile(s.provider, recon, OptionalConfigMap(s.cluster, s.provider.spec.configMapName),
                             Existing(s, recon))
            && s.provider.spec.secret.Some?
            ==> NoSecretDrift(recon, Existing(s, recon)) && Existing(s, recon).Keys == recon.secrets.Keys
  {
    DriftDetectionIsExact(s.provider, recon, OptionalConfigMap(s.cluster, s.provider.spec.configMapName), s.cluster);
  }

  lemma FirstIsComplete(c: Codec, s: State, env: Env, run: Run)
    requires env.keyValuesFetched < |s.store.keyValues| && env.featureFlagsFetched < |s.store.featureFlags|
    requires run.options == NEW_OPTIONS
    ensures var step := if run.shouldReconcile then FullReconciliation(c, s.provider, s.store, env, run) else Go(run);
            && MetadataComplete(s.provider.spec, step.run) && step.run.recon == run.recon
            && step.run.shouldReconcile == run.shouldReconcile && step.run.cluster == run.cluster
            && (step.Go? && run.shouldReconcile ==>
                  step.run.options.secretSettingPopulated == s.provider.spec.secret.Some?)
            && (!run.shouldReconcile ==> !step.run.options.secretSettingPopulated)
  {
    hide LoadedSettings;
    if run.shouldReconcile {
      var content := s.store.keyValues[env.keyValuesFetched];
      var step := FullReconciliation(c, s.provider, s.store, env, run);
      if step.Go? {
        var data := Typed(c, content.settings, Flags(s.provider.spec, s.store, env.featureFlagsFetched),
                          s.provider.spec.configMapData);
        LoadedIsComplete(c, s.provider.spec, env, data, content.references, step.run);
      }
    }
  }

  lemma FeatureFlagsAdvance(c: Codec, provider: Provider, store: Store, env: Env, data: Data, run: Run)
    requires ValidSpec(provider.spec) && env.featureFlagsFetched < |store.featureFlags|
    ensures var step := FeatureFlagRefresh(c, provider, store, env, data, run);
            step.run.shouldReconcile == run.shouldReconcile && step.run.cluster == run.cluster
  {
    hide RefreshFeatureFlags;
  }

  lemma KeyValuesAdvance(c: Codec, provider: Provider, store: Store, env: Env, data: Data, run: Run)
    requires ValidSpec(provider.spec) && env.keyValuesFetched < |store.keyValues|
    ensures var step := KeyValueRefresh(c, provider, store, env, data, run);
            step.run.shouldReconcile == run.shouldReconcile && step.run.cluster == run.cluster
  {
    hide RefreshKeyValues, LoadedSettings;
  }

  /** A secret refresh does not undo that Secrets are populated. */
  lemma SecretsPopulated(c: Codec, provider: Provider, env: Env, existing: map<string, Secret>, run: Run)
    ensures var step := SecretReferenceRefresh(c, provider, env, existing, run);
            && (run.options.secretSettingPopulated ==> step.run.options.secretSettingPopulated)
            && step.run.cluster == run.cluster && step.run.recon.secrets == run.recon.secrets
  {
    hide RefreshedSecrets;
  }

  lemma PopulateAndWriteIsReady(c: Codec, s: State, env: Env, start: Store, recon: Recon)
    requires Prepared(c, false, s, env, start, recon)
    ensures var step := PopulateAndWrite(c, s, env, recon);
            step.Go? ==> ReadyToSync(s, recon, step.run)
  {
    hide PopulateSettings, ShouldCreateOrUpdateConfigMap, Invariant, Existing, NoSecretDrift;
    PopulateIsReady(c, s, env, start, recon);
    assert Existing(s, recon) == Live(s.cluster, NamesToCollect(s.provider.spec, recon)) by { ExistingIs(s, recon); }
  }

  lemma ExistingIs(s: State, recon: Recon)
    ensures Existing(s, recon) == Live(s.cluster, NamesToCollect(s.provider.spec, recon))
  {
  }

  // ---------------------------------------------------------------- writing Secrets

  /** The live Secret stands for what the run wants, and its version is recorded. */
  ghost predicate InSync(c: Codec, spec: Spec, run: Run, n: string) {
    && spec.secret.Some? && n in run.cluster.secrets && n in MetadataOf(run) && n in run.settings.secrets
    && MetadataOf(run)[n].version == Some(run.cluster.secrets[n].version)
    && SecretReflects(c, spec.secret.value, n, run.settings.secrets[n].data, run.cluster.secrets[n].data)
  }

  /** Nothing about the name n has changed. */
  ghost predicate Untouched(before: Run, after: Run, n: string) {
    && (n in after.cluster.secrets <==> n in before.cluster.secrets)
    && (n in after.cluster.secrets ==> after.cluster.secrets[n] == before.cluster.secrets[n])
    && (n in MetadataOf(after) <==> n in MetadataOf(before))
    && (n in MetadataOf(after) ==> MetadataOf(after)[n] == MetadataOf(before)[n])
  }

  /** Collected Secrets are as they are in the cluster, for the names still to be written. */
  ghost predicate Current(existing: map<string, Secret>, run: Run, names: seq<string>) {
    forall n :: n in names ==>
      (n in existing <==> n in run.cluster.secrets) && (n in existing ==> existing[n] == run.cluster.secrets[n])
  }

  lemma WriteOneSecretAt(c: Codec, provider: Provider, env: Env, existing: map<string, Secret>, name: string,
                         run: Run, n: string)
    requires name in run.settings.secrets && name in MetadataOf(run) && provider.spec.secret.Some?
    requires Current(existing, run, [name])
    ensures var step := WriteOneSecret(c, provider, env, existing, name, run);
            && !step.Crash?
            && (n != name ==> Untouched(run, step.run, n))
            && (step.Go? && n == name ==> InSync(c, provider.spec, step.run, n))
  {
    hide WriteOneSecret, InSync, Untouched, Current;
    OthersAreUntouched(c, provider, env, existing, name, run, n);
    WrittenIsInSync(c, provider, env, existing, name, run);
  }

  lemma OthersAreUntouched(c: Codec, provider: Provider, env: Env, existing: map<string, Secret>, name: string,
                           run: Run, n: string)
    requires name in run.settings.secrets && name in MetadataOf(run) && provider.spec.secret.Some?
    requires Current(existing, run, [name])
    ensures var step := WriteOneSecret(c, provider, env, existing, name, run);
            !step.Crash? && (n != name ==> Untouched(run, step.run, n))
  {
    hide ParsedAt, SecretReflects;
    assert name in [name];
  }

  lemma WrittenIsInSync(c: Codec, provider: Provider, env: Env, existing: map<string, Secret>, name: string, run: Run)
    requires name in run.settings.secrets && name in MetadataOf(run) && provider.spec.secret.Some?
    requires Current(existing, run, [name])
    ensures var step :=
      WriteOneSecret(c, provider, env, existing, name, run); step.Go? ==> InSync(c, provider.spec, step.run, name)
  {
    hide ParsedAt;
    assert name in [name];
  }

  lemma OneWriteKeepsCurrent(c: Codec, provider: Provider, env: Env, existing: map<string, Secret>,
                             names: seq<string>, run: Run)
    requires names != [] && Distinct(names) && provider.spec.secret.Some?
    requires forall n :: n in names ==> n in run.settings.secrets && n in MetadataOf(run)
    requires Current(existing, run, names)
    ensures var step := WriteOneSecret(c, provider, env, existing, names[0], run);
            && Current(existing, step.run, names[1..])
            && forall n :: n in names[1..] ==> n in step.run.settings.secrets && n in MetadataOf(step.run)
  {
    hide WriteOneSecret, KeepsCore;
    var step := WriteOneSecret(c, provider, env, existing, names[0], run);
    WriteOneSecretKeepsCore(c, provider, env, existing, names[0], run);
    KeepsCoreSecrets(run, step.run);
    forall n | n in names[1..]
      ensures Untouched(run, step.run, n) && n in names
    {
      var i :| 0 <= i < |names[1..]| && names[1..][i] == n;
      assert names[i + 1] == n != names[0];
      WriteOneSecretAt(c, provider, env, existing, names[0], run, n);
    }
  }

  lemma StaysInSync(c: Codec, spec: Spec, before: Run, after: Run, n: string)
    requires InSync(c, spec, before, n) && Untouched(before, after, n) && KeepsCore(before, after)
    ensures InSync(c, spec, after, n)
  {
    hide SecretReflects;
  }

  lemma UntouchedTransitive(a: Run, b: Run, d: Run, n: string)
    requires Untouched(a, b, n) && Untouched(b, d, n)
    ensures Untouched(a, d, n)
  {
  }

  /** Writing never misses metadata; when it goes through, the written Secrets are in step and
      the others are untouched. */
  lemma {:induction false} WriteSecretsAt(c: Codec, provider: Provider, env: Env, existing: map<string, Secret>,
                                         names: seq<string>, run: Run, n: string)
    requires Distinct(names) && provider.spec.secret.Some? && Current(existing, run, names)
    requires forall m :: m in names ==> m in run.settings.secrets && m in MetadataOf(run)
    ensures var step := WriteSecrets(c, provider, env, existing, names, run);
            && !step.Crash?
            && (n !in names ==> Untouched(run, step.run, n))
            && (step.Go? && n in names ==> InSync(c, provider.spec, step.run, n))
    decreases names
  {
    hide WriteOneSecret, KeepsCore, InSync, Current, Untouched;
    if names == [] {
      UntouchedItself(run, n);
    } else {
      assert Current(existing, run, [names[0]]) by { CurrentHead(existing, run, names); }
      WriteOneSecretAt(c, provider, env, existing, names[0], run, n);
      OneWriteKeepsCurrent(c, provider, env, existing, names, run);
      var step := WriteOneSecret(c, provider, env, existing, names[0], run);
      if step.Go? {
        assert forall i :: 0 <= i < |names[1..]| ==> names[1..][i] == names[i + 1];
        WriteSecretsAt(c, provider, env, existing, names[1..], step.run, n);
        var after := WriteSecrets(c, provider, env, existing, names[1..], step.run);
        WriteSecretsKeepsCore(c, provider, env, existing, names[1..], step.run);
        if n == names[0] {
          assert n !in names[1..];
          if after.Go? {
            StaysInSync(c, provider.spec, step.run, after.run, n);
          }
        } else {
          assert n in names <==> n in names[1..];
          if n !in names {
            UntouchedTransitive(run, step.run, after.run, n);
          }
        }
      }
    }
  }

  lemma UntouchedItself(run: Run, n: string)
    ensures Untouched(run, run, n)
  {
  }

  lemma CurrentHead(existing: map<string, Secret>, run: Run, names: seq<string>)
    requires names != [] && Current(existing, run, names)
    ensures Current(existing, run, [names[0]])
  {
  }

  /** Expelling deletes the listed names that are not kept, and nothing else. */
  lemma {:induction false} ExpelSecretsAt(env: Env, keep: set<string>, names: seq<string>, run: Run, n: string)
    ensures var step := ExpelSecrets(env, keep, names, run);
            && (n in keep || n !in names ==> Untouched(run, step.run, n))
            && (step.Go? && n in names && n !in keep ==> n !in step.run.cluster.secrets)
            && (n !in run.cluster.secrets ==> n !in step.run.cluster.secrets)
    decreases names
  {
    if names != [] {
      assert names == [names[0]] + names[1..];
      if names[0] in keep {
        ExpelSecretsAt(env, keep, names[1..], run, n);
      } else {
        var called := Called(run, DeleteSecret(names[0]));
        var deleted := called.(cluster := run.cluster.(secrets := run.cluster.secrets - {names[0]}));
        if n != names[0] {
          assert Untouched(run, deleted, n);
        }
        ExpelSecretsAt(env, keep, names[1..], deleted, n);
      }
    }
  }

  // ---------------------------------------------------------------- conservation

  /** The live Secrets stand for what was wanted, each with its version recorded; of the names
      looked at first, only those remain. */
  ghost predicate Conserved(c: Codec, spec: Spec, existing: map<string, Secret>, run: Run) {
    && (forall n :: n in run.settings.secrets ==> InSync(c, spec, run, n))
    && (forall n :: n in existing && n !in run.settings.secrets ==> n !in run.cluster.secrets)
  }

  lemma CollectedIsCurrent(s: State, recon: Recon, run: Run, names: seq<string>)
    requires run.cluster.secrets == s.cluster.secrets && Lists(names, run.settings.secrets.Keys)
    ensures Current(Collected(Existing(s, recon), run), run, names)
  {
  }

  /** Secret conservation, and no missing metadata: when the populated Secrets are synced, the
      wanted ones are live at their recorded versions and the others are gone. */
  lemma SyncConservesSecrets(c: Codec, s: State, env: Env, recon: Recon, run: Run)
    requires ListsKeys(env) && ReadyToSync(s, recon, run) && run.options.secretSettingPopulated
    ensures var step := SyncSecrets(c, s.provider, env, Existing(s, recon), run);
            && !step.Crash?
            && (step.Go? ==> Conserved(c, s.provider.spec, Existing(s, recon), step.run)
                             && step.run.settings.secrets.Keys == MetadataOf(step.run).Keys)
  {
    hide WriteSecrets, ExpelSecrets, InSync, Current, Untouched, KeepsCore, Existing;
    var existing := Existing(s, recon);
    var names := env.order(run.settings.secrets.Keys);
    assert Lists(names, run.settings.secrets.Keys);
    if ReadsNew(s.provider, env, existing, run) {
      var collected := Collected(existing, run);
      CollectedIsCurrent(s, recon, run, names);
      var step := WriteSecrets(c, s.provider, env, collected, names, run);
      WriteSecretsKeepsCore(c, s.provider, env, collected, names, run);
      KeepsCoreKeys(run, step.run);
      WriteSecretsAt(c, s.provider, env, collected, names, run, "");
      if step.Go? {
        var keep, listed := MetadataOf(step.run).Keys, env.order(collected.Keys);
        assert Lists(listed, collected.Keys);
        var last := ExpelSecrets(env, keep, listed, step.run);
        ExpelSecretsKeepsCore(env, keep, listed, step.run);
        KeepsCoreKeys(step.run, last.run);
        if last.Go? {
          forall n | n in last.run.settings.secrets
            ensures InSync(c, s.provider.spec, last.run, n)
          {
            WriteSecretsAt(c, s.provider, env, collected, names, run, n);
            ExpelSecretsAt(env, keep, listed, step.run, n);
            StaysInSync(c, s.provider.spec, step.run, last.run, n);
          }
          forall n | n in existing && n !in last.run.settings.secrets
            ensures n !in last.run.cluster.secrets
          {
            ExpelSecretsAt(env, keep, listed, step.run, n);
          }
        }
      }
    }
  }

  lemma KeepsCoreKeys(before: Run, after: Run)
    requires KeepsCore(before, after)
    ensures after.settings.secrets == before.settings.secrets && MetadataOf(after).Keys == MetadataOf(before).Keys
  {
  }

  /** A name that is neither wanted nor live stays away. */
  lemma SyncCreatesOnlyWanted(c: Codec, s: State, env: Env, recon: Recon, run: Run, n: string)
    requires ListsKeys(env) && ReadyToSync(s, recon, run) && run.options.secretSettingPopulated
    requires n !in run.settings.secrets && n !in run.cluster.secrets
    ensures n !in SyncSecrets(c, s.provider, env, Existing(s, recon), run).run.cluster.secrets
  {
    hide WriteSecrets, ExpelSecrets, Current, KeepsCore, Existing;
    var existing := Existing(s, recon);
    var names := env.order(run.settings.secrets.Keys);
    assert Lists(names, run.settings.secrets.Keys);
    if ReadsNew(s.provider, env, existing, run) {
      var collected := Collected(existing, run);
      CollectedIsCurrent(s, recon, run, names);
      WriteSecretsAt(c, s.provider, env, collected, names, run, n);
      var step := WriteSecrets(c, s.provider, env, collected, names, run);
      ExpelSecretsAt(env, MetadataOf(step.run).Keys, env.order(collected.Keys), step.run, n);
    }
  }

  // ---------------------------------------------------------------- nothing of another owner

  /** The Secrets that are looked at first are the provider's own. */
  ghost predicate ExistingOwned(s: State, recon: Recon) {
    forall n :: n in Existing(s, recon) ==> Owned(s.cluster.secrets[n].owners, s.provider)
  }

  /** Syncing leaves a Secret of another owner alone, whatever fails. */
  lemma SyncTouchesOnlyOwned(c: Codec, s: State, env: Env, recon: Recon, run: Run, n: string)
    requires ListsKeys(env) && ReadyToSync(s, recon, run) && ExistingOwned(s, recon)
    requires n in s.cluster.secrets && !Owned(s.cluster.secrets[n].owners, s.provider)
    ensures Untouched(run, SyncSecrets(c, s.provider, env, Existing(s, recon), run).run, n)
  {
    hide WriteSecrets, ExpelSecrets, Current, KeepsCore;
    var existing := Existing(s, recon);
    if !run.options.secretSettingPopulated {
      if s.provider.spec.secret.None? {
        ExpelSecretsAt(env, MetadataOf(run).Keys, env.order(existing.Keys), run, n);
        assert Lists(env.order(existing.Keys), existing.Keys);
      }
    } else if ReadsNew(s.provider, env, existing, run) {
      var names := env.order(run.settings.secrets.Keys);
      assert Lists(names, run.settings.secrets.Keys);
      var collected := Collected(existing, run);
      CollectedIsCurrent(s, recon, run, names);
      WriteSecretsAt(c, s.provider, env, collected, names, run, n);
      var step := WriteSecrets(c, s.provider, env, collected, names, run);
      if step.Go? {
        var listed := env.order(collected.Keys);
        assert Lists(listed, collected.Keys);
        ExpelSecretsAt(env, MetadataOf(step.run).Keys, listed, step.run, n);
        UntouchedTransitive(run, step.run, ExpelSecrets(env, MetadataOf(step.run).Keys, listed, step.run).run, n);
      }
    }
  }

  // ---------------------------------------------------------------- one reconcile

  /** What Prepare has established when it is ready. */
  lemma PrepareChecksOwners(provider: Provider, cluster: Cluster, before: Option<Recon>, env: Env)
    ensures var (ready, recon) := Prepare(provider, cluster, before, env);
            ready && recon.Some? ==>
              && NamesToCollect(provider.spec, recon.value) == NamesToCollect(provider.spec, before.GetOr(INITIAL))
              && (forall n :: n in Live(cluster, NamesToCollect(provider.spec, recon.value)) ==>
                    Owned(cluster.secrets[n].owners, provider))
              && (provider.spec.configMapName in cluster.configMaps ==>
                    Owned(cluster.configMaps[provider.spec.configMapName].owners, provider))
              && (provider.spec.secret.None? ==> recon.value.secrets == map[])
  {
    var recon := before.GetOr(INITIAL);
    assert Reset(provider.spec, recon, cluster).secrets.Keys == if provider.spec.secret.None? then {}
           else recon.secrets.Keys;
  }

  /** The middle part writes no Secret, and no ConfigMap but the target. */
  lemma PopulateAndWriteFrame(c: Codec, s: State, env: Env, start: Store, recon: Recon)
    requires Prepared(c, false, s, env, start, recon)
    ensures var after := PopulateAndWrite(c, s, env, recon).run.cluster;
            && after.secrets == s.cluster.secrets
            && forall n :: n in s.cluster.configMaps && n != s.provider.spec.configMapName ==>
                 n in after.configMaps && after.configMaps[n] == s.cluster.configMaps[n]
  {
    hide PopulateSettings, WriteConfigMap, Invariant;
    var configMap := OptionalConfigMap(s.cluster, s.provider.spec.configMapName);
    var existing := Live(s.cluster, NamesToCollect(s.provider.spec, recon));
    var v, w := PopulateFacts(c, false, s, env, start, recon, existing);
    PutFrame(c, s.provider, env, PopulateSettings(c, s.provider, s.store, env, configMap, existing,
                                                  StartRun(recon, s.cluster)).run);
  }

  lemma PutFrame(c: Codec, provider: Provider, env: Env, run: Run)
    ensures var after := WriteConfigMap(c, provider, env, run).run.cluster;
            && after.secrets == run.cluster.secrets
            && forall n :: n in run.cluster.configMaps && n != provider.spec.configMapName ==>
                 n in after.configMaps && after.configMaps[n] == run.cluster.configMaps[n]
  {
    hide ShouldCreateOrUpdateConfigMap;
  }

  /** The tracked Secrets are live at their recorded versions, and of the names looked at only
      they are live. */
  ghost predicate SecretsTracked(names: set<string>, secrets: map<string, Tracked>, cluster: Cluster) {
    && (forall n :: n in secrets ==> n in cluster.secrets && secrets[n].version == Some(cluster.secrets[n].version))
    && (forall n :: n in names ==> (n in cluster.secrets <==> n in secrets))
  }

  lemma SyncedSecretsAreTracked(c: Codec, s: State, env: Env, recon: Recon, run: Run)
    requires ListsKeys(env) && ReadyToSync(s, recon, run) && s.provider.spec.secret.Some?
    ensures var step := SyncSecrets(c, s.provider, env, Existing(s, recon), run);
            && !step.Crash?
            && (step.Go? ==>
                  SecretsTracked(NamesToCollect(s.provider.spec, recon), NewSecrets(step.run), step.run.cluster))
  {
    hide SyncSecrets, SecretReflects, KeepsCore, MetadataComplete;
    var step := SyncSecrets(c, s.provider, env, Existing(s, recon), run);
    SyncSecretsKeepsCore(c, s.provider, env, Existing(s, recon), run);
    assert step.run.options == run.options by { KeepsCoreOptions(run, step.run); }
    if run.options.secretSettingPopulated {
      SyncConservesSecrets(c, s, env, recon, run);
      KeepsCoreKeys(run, step.run);
      if step.Go? {
        assert NewSecrets(step.run) == MetadataOf(step.run);
        forall n | n in NamesToCollect(s.provider.spec, recon)
          ensures n in step.run.cluster.secrets <==> n in MetadataOf(step.run)
        {
          if n !in step.run.settings.secrets && n !in Existing(s, recon) {
            SyncCreatesOnlyWanted(c, s, env, recon, run, n);
          }
        }
      }
    } else {
      NothingToSync(c, s, env, recon, run);
    }
  }

  lemma KeepsCoreOptions(before: Run, after: Run)
    requires KeepsCore(before, after)
    ensures after.options == before.options
  {
  }

  lemma NothingToSync(c: Codec, s: State, env: Env, recon: Recon, run: Run)
    requires ListsKeys(env) && s.provider.spec.secret.Some? && !run.options.secretSettingPopulated
    ensures SyncSecrets(c, s.provider, env, Existing(s, recon), run) == Go(run)
  {
  }
}
