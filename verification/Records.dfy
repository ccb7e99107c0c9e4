/** What a reconcile that is done records of the store, and the calls that it makes, in their order. */
module Records {
  import opened Clock
  import opened Wrappers
  import opened TypedSetting
  import opened ReconcileTypes
  import opened Processor
  import opened Reconciler
  import opened NoLostUpdate
  import opened SecretSync
  import opened SecretGuarantees
  import opened SecretRefresh
  import opened Convergence
  import opened Stopping
  import opened Failures
  import opened StoppedLoads
  import opened Plans
  import opened Loads
  import opened Sentinels

  // ---------------------------------------------------------------- the populating phases

  function FlagCalls(spec: Spec, recon: Recon, env: Env): seq<Call> {
    if !FeatureFlagsDue(spec, recon, env) then []
    else if FlagsReload(spec, recon, env) then [CheckFeatureFlagETags, RefreshFeatureFlagSettings]
    else [CheckFeatureFlagETags]
  }

  function KeyValueCalls(spec: Spec, store: Store, recon: Recon, env: Env): seq<Call> {
    var check := if spec.monitoring then CheckSentinels else CheckKeyValueETags;
    if !KeyValuesDue(spec, recon, env) then []
    else if KeyValuesReload(spec, store, recon, env) then [check, RefreshKeyValueSettings]
    else [check]
  }

  /** References are resolved on their own only if the key-values have not brought them along. */
  function ReferenceCalls(spec: Spec, store: Store, recon: Recon, env: Env): seq<Call> {
    if SecretRefreshEnabled(spec) && env.now > recon.nextSecret && !KeyValuesReload(spec, store, recon, env)
    then [ResolveSecretReferences] else []
  }

  function PopulatingCalls(spec: Spec, store: Store, recon: Recon, env: Env, full: bool): seq<Call> {
    if full then [CreateTargetSettings]
    else FlagCalls(spec, recon, env) + KeyValueCalls(spec, store, recon, env) + ReferenceCalls(spec, store, recon, env)
  }

  /** The parts of the options that are recorded. */
  datatype Updates = Updates(keyValues: Option<nat>, flags: Option<nat>, sentinels: Option<nat>, changed: bool)

  function UpdatesOf(run: Run): Updates {
    Updates(run.options.updatedKeyValueETags, run.options.updatedFeatureFlagETags, run.options.updatedSentinelETags,
            run.options.sentinelChanged)
  }

  lemma FlagsCalled(c: Codec, provider: Provider, store: Store, env: Env, data: Data, run: Run)
    requires ValidSpec(provider.spec) && env.featureFlagsFetched < |store.featureFlags|
    ensures var spec, step := provider.spec, FeatureFlagRefresh(c, provider, store, env, data, run);
            step.Go? ==>
              && step.run.trace == run.trace + (if run.shouldReconcile then [] else FlagCalls(spec, run.recon, env))
              && UpdatesOf(step.run)
                 == UpdatesOf(run).(flags := if !run.shouldReconcile && FlagsReload(spec, run.recon, env)
                                             then Some(env.featureFlagsFetched) else UpdatesOf(run).flags)
              && step.run.recon == run.recon.(nextFeatureFlag := step.run.recon.nextFeatureFlag)
              && step.run.shouldReconcile == run.shouldReconcile
    ensures var spec, step := provider.spec, FeatureFlagRefresh(c, provider, store, env, data, run);
            !step.Go? ==> !run.shouldReconcile && step.run.trace <= run.trace + FlagCalls(spec, run.recon, env)
  {
    hide RefreshFeatureFlags;
  }

  lemma ReloadCalled(c: Codec, spec: Spec, store: Store, env: Env, existing: Data, due: Time, run: Run)
    requires ValidSpec(spec) && env.keyValuesFetched < |store.keyValues|
    ensures var step := ReloadKeyValues(c, spec, store, env, existing, due, run);
            && step.run.trace == run.trace
            && (step.Go? ==>
                  && UpdatesOf(step.run)
                     == UpdatesOf(run).(keyValues := if run.options.keyValuePageETagsChanged
                                                     then Some(env.keyValuesFetched) else UpdatesOf(run).keyValues)
                  && step.run.recon == run.recon.(nextKeyValue := step.run.recon.nextKeyValue)
                  && step.run.shouldReconcile == run.shouldReconcile)
  {
    hide RefreshKeyValues, LoadedSettings, Loadable;
  }

  /** What checking, and reloading if there is a change, adds to the updates. */
  function CheckedUpdates(spec: Spec, store: Store, recon: Recon, env: Env, before: Updates): Updates {
    if spec.monitoring then
      before.(sentinels := Some(SentinelAt(store, env.sentinelChecked)),
              changed := KeyValuesChanged(spec, store, recon, env))
    else
      before.(keyValues := if KeyValuesChanged(spec, store, recon, env) then Some(env.keyValuesFetched)
                           else before.keyValues)
  }

  lemma DueKeyValuesCalled(c: Codec, spec: Spec, store: Store, env: Env, existing: Data, due: Time, run: Run)
    requires ValidSpec(spec) && env.keyValuesFetched < |store.keyValues|
    requires !run.options.sentinelChanged && !run.options.keyValuePageETagsChanged
    ensures var step := DueKeyValueRefresh(c, spec, store, env, existing, due, run);
            var calls := [KeyValueCheck(spec)]
                         + if KeyValuesChanged(spec, store, run.recon, env) then [RefreshKeyValueSettings] else [];
            && step.run.trace <= run.trace + calls
            && (step.Go? ==>
                  && step.run.trace == run.trace + calls
                  && UpdatesOf(step.run) == CheckedUpdates(spec, store, run.recon, env, UpdatesOf(run))
                  && step.run.recon == run.recon.(nextKeyValue := step.run.recon.nextKeyValue)
                  && step.run.shouldReconcile == run.shouldReconcile)
  {
    hide ReloadKeyValues;
    var called := Called(run, KeyValueCheck(spec));
    var checked := CheckedOptions(spec, store, env, run.recon, run.options);
    var reload := Called(WithOptions(called, checked), RefreshKeyValueSettings);
    assert checked.sentinelChanged || checked.keyValuePageETagsChanged
      <==> KeyValuesChanged(spec, store, run.recon, env);
    ReloadCalled(c, spec, store, env, run.settings.configMap.GetOr(existing), due, reload);
  }

  lemma KeyValuesCalled(c: Codec, provider: Provider, store: Store, env: Env, data: Data, run: Run)
    requires ValidSpec(provider.spec) && env.keyValuesFetched < |store.keyValues|
    requires !run.options.sentinelChanged && !run.options.keyValuePageETagsChanged
    ensures var spec, step := provider.spec, KeyValueRefresh(c, provider, store, env, data, run);
            step.Go? ==>
              && step.run.trace
                 == run.trace + (if run.shouldReconcile then [] else KeyValueCalls(spec, store, run.recon, env))
              && UpdatesOf(step.run)
                 == (if run.shouldReconcile || !KeyValuesDue(spec, run.recon, env) then UpdatesOf(run)
                     else CheckedUpdates(spec, store, run.recon, env, UpdatesOf(run)))
              && step.run.recon == run.recon.(nextKeyValue := step.run.recon.nextKeyValue)
              && step.run.shouldReconcile == run.shouldReconcile
    ensures var spec, step := provider.spec, KeyValueRefresh(c, provider, store, env, data, run);
            !step.Go? ==>
              !run.shouldReconcile && step.run.trace <= run.trace + KeyValueCalls(spec, store, run.recon, env)
  {
    hide DueKeyValueRefresh, KeyValuesChanged, CheckedUpdates;
    var spec := provider.spec;
    if KeyValueRefreshEnabled(spec) {
      var enabled := WithOptions(run, run.options.(keyValueRefreshEnabled := true));
      assert enabled.recon == run.recon && enabled.trace == run.trace && UpdatesOf(enabled) == UpdatesOf(run);
      DueKeyValuesCalled(c, spec, store, env, data, DeadlineAfter(env, spec.keyValueRefresh), enabled);
    }
  }

  lemma ReferencesCalled(c: Codec, provider: Provider, env: Env, existing: map<string, Secret>, run: Run)
    ensures var spec, step := provider.spec, SecretReferenceRefresh(c, provider, env, existing, run);
            var due := SecretRefreshEnabled(spec) && env.now > run.recon.nextSecret;
            step.Go? ==>
              && step.run.trace
                 == run.trace + (if due && !run.options.secretSettingPopulated then [ResolveSecretReferences] else [])
              && UpdatesOf(step.run) == UpdatesOf(run) && step.run.shouldReconcile == run.shouldReconcile
    ensures var spec, step := provider.spec, SecretReferenceRefresh(c, provider, env, existing, run);
            var due := SecretRefreshEnabled(spec) && env.now > run.recon.nextSecret;
            !step.Go? ==>
              due && !run.options.secretSettingPopulated && step.run.trace == run.trace + [ResolveSecretReferences]
  {
    hide RefreshedSecrets, WritesIntoNil;
  }

  lemma LoadCalled(c: Codec, provider: Provider, store: Store, env: Env, run: Run)
    requires env.keyValuesFetched < |store.keyValues| && env.featureFlagsFetched < |store.featureFlags|
    ensures var spec, step := provider.spec, FullReconciliation(c, provider, store, env, run);
            step.Go? ==>
              && step.run.trace == run.trace + [CreateTargetSettings]
              && UpdatesOf(step.run)
                 == Updates(Some(env.keyValuesFetched),
                            if spec.featureFlag.Some? then Some(env.featureFlagsFetched) else None,
                            if KeyValueRefreshEnabled(spec) && spec.monitoring
                            then Some(SentinelAt(store, env.sentinelRead)) else None,
                            UpdatesOf(run).changed)
              && step.run.recon == run.recon && step.run.shouldReconcile == run.shouldReconcile
              && step.run.options.secretSettingPopulated == spec.secret.Some?
              && step.run.options.keyValuePageETagsChanged == run.options.keyValuePageETagsChanged
    ensures FullReconciliation(c, provider, store, env, run).run.trace == run.trace + [CreateTargetSettings]
  {
    hide Typed, LoadedSettings, Loadable;
  }

  /** What populating ends with: its calls, and the ETags to be recorded. */
  ghost predicate AsCalled(s: State, recon: Recon, env: Env, full: bool, run: Run) {
    var spec, none := s.provider.spec, Updates(None, None, None, false);
    && run.trace == PopulatingCalls(spec, s.store, recon, env, full) && run.shouldReconcile == full
    && UpdatesOf(run)
       == if full then
            Updates(Some(env.keyValuesFetched), if spec.featureFlag.Some? then Some(env.featureFlagsFetched) else None,
                    LoadedSentinels(spec, s.store, env), false)
          else RefreshUpdates(spec, s.store, recon, env)
  }

  function RefreshUpdates(spec: Spec, store: Store, recon: Recon, env: Env): Updates {
    var checked := KeyValuesDue(spec, recon, env) && spec.monitoring;
    Updates(if KeyValuesReload(spec, store, recon, env) && !spec.monitoring then Some(env.keyValuesFetched) else None,
            if FlagsReload(spec, recon, env) then Some(env.featureFlagsFetched) else None,
            if checked then Some(SentinelAt(store, env.sentinelChecked)) else None,
            checked && KeyValuesReload(spec, store, recon, env))
  }

  lemma PopulatedAsCalled(c: Codec, s: State, env: Env, start: Store, recon: Recon)
    requires Prepared(c, false, s, env, start, recon)
    ensures var step := Populating(c, s, env, recon);
            step.Go? ==> AsCalled(s, recon, env, LoadsInFull(s, recon), step.run)
  {
    hide FullReconciliation, FeatureFlagRefresh, KeyValueRefresh, SecretReferenceRefresh, Halfway, Invariant,
         ShouldReconcile, FullData, LoadedSecrets, RefreshedSecrets, RefreshFeatureFlags, RefreshKeyValues,
         KeyValuesReload, FlagsReload, KeyValuesDue;
    var spec, existing := s.provider.spec, Existing(s, recon);
    var data, first := LiveData(s.cluster, spec.configMapName), StartRun(recon, s.cluster);
    if LoadsInFull(s, recon) {
      LoadAsCalled(c, s, env, recon, data, existing, first.(shouldReconcile := true));
    } else {
      assert first.(shouldReconcile := false) == first;
      var v, w := NotDueStands(c, false, s, env, start, recon, existing);
      FlagsPlan(c, s.provider, s.store, env, data, first);
      FlagsCalled(c, s.provider, s.store, env, data, first);
      FlagsKeepChecks(c, spec, s.provider, s.store, env, data, first);
      var second := FeatureFlagRefresh(c, s.provider, s.store, env, data, first);
      if second.Go? {
        KeyValuesPlan(c, s.provider, s.store, env, data, second.run);
        KeyValuesCalled(c, s.provider, s.store, env, data, second.run);
        FlagDeadlineIsApart(spec, s.store, env, recon, second.run.recon.nextFeatureFlag);
        var third := KeyValueRefresh(c, s.provider, s.store, env, data, second.run);
        if third.Go? {
          ReferencesCalled(c, s.provider, env, existing, third.run);
          assert third.run.recon.nextSecret == second.run.recon.nextSecret == recon.nextSecret;
          assert third.run.trace == FlagCalls(spec, recon, env) + KeyValueCalls(spec, s.store, recon, env);
          assert SecretRefreshEnabled(spec) ==>
                   third.run.options.secretSettingPopulated == KeyValuesReload(spec, s.store, recon, env);
          var last := SecretReferenceRefresh(c, s.provider, env, existing, third.run);
          if last.Go? {
            assert last.run.trace == PopulatingCalls(spec, s.store, recon, env, false);
            assert UpdatesOf(last.run) == RefreshUpdates(spec, s.store, recon, env);
          }
        }
      }
    }
  }

  lemma Begins(calls: seq<Call>, a: seq<Call>, b: seq<Call>)
    requires calls <= a
    ensures calls <= a + b
  {
  }

  /** When populating stops, its calls are the first ones of these. */
  lemma PopulatedBegins(c: Codec, s: State, env: Env, start: Store, recon: Recon)
    requires Prepared(c, false, s, env, start, recon)
    ensures Populating(c, s, env, recon).run.trace
            <= PopulatingCalls(s.provider.spec, s.store, recon, env, LoadsInFull(s, recon))
  {
    hide FullReconciliation, FeatureFlagRefresh, KeyValueRefresh, SecretReferenceRefresh, Invariant, ShouldReconcile,
         FullData, LoadedSecrets, RefreshedSecrets, RefreshFeatureFlags, RefreshKeyValues, KeyValuesReload, FlagsReload,
         KeyValuesDue, FlagCalls, KeyValueCalls, AsCalled;
    var spec, existing := s.provider.spec, Existing(s, recon);
    var data, first := LiveData(s.cluster, spec.configMapName), StartRun(recon, s.cluster);
    var flags, keyValues := FlagCalls(spec, recon, env), KeyValueCalls(spec, s.store, recon, env);
    var references := ReferenceCalls(spec, s.store, recon, env);
    if LoadsInFull(s, recon) {
      LoadAsCalled(c, s, env, recon, data, existing, first.(shouldReconcile := true));
      PopulatedAsCalled(c, s, env, start, recon);
      LoadTrace(s, recon, env, Populating(c, s, env, recon).run);
    } else {
      assert first.(shouldReconcile := false) == first;
      FlagsCalled(c, s.provider, s.store, env, data, first);
      FlagsKeepChecks(c, spec, s.provider, s.store, env, data, first);
      var second := FeatureFlagRefresh(c, s.provider, s.store, env, data, first);
      if !second.Go? {
        Begins(second.run.trace, flags, keyValues + references);
        assert flags + (keyValues + references) == flags + keyValues + references;
      } else {
        KeyValuesCalled(c, s.provider, s.store, env, data, second.run);
        FlagDeadlineIsApart(spec, s.store, env, recon, second.run.recon.nextFeatureFlag);
        var third := KeyValueRefresh(c, s.provider, s.store, env, data, second.run);
        if !third.Go? {
          Begins(third.run.trace, flags + keyValues, references);
        } else {
          FlagsPlan(c, s.provider, s.store, env, data, first);
          KeyValuesPlan(c, s.provider, s.store, env, data, second.run);
          ReferencesCalled(c, s.provider, env, existing, third.run);
          PopulatedAsCalled(c, s, env, start, recon);
          assert third.run.recon.nextSecret == second.run.recon.nextSecret == recon.nextSecret;
          assert third.run.trace == flags + keyValues;
          assert SecretRefreshEnabled(spec) ==>
                   third.run.options.secretSettingPopulated == KeyValuesReload(spec, s.store, recon, env);
          CalledInTurn(s, recon, env, Populating(c, s, env, recon).run);
        }
      }
    }
  }

  lemma CalledInTurn(s: State, recon: Recon, env: Env, run: Run)
    ensures AsCalled(s, recon, env, false, run) ==>
              run.trace == PopulatingCalls(s.provider.spec, s.store, recon, env, false)
  {
  }

  lemma LoadTrace(s: State, recon: Recon, env: Env, run: Run)
    ensures AsCalled(s, recon, env, true, run) ==> run.trace == [CreateTargetSettings]
  {
  }

  lemma LoadAsCalled(c: Codec, s: State, env: Env, recon: Recon, data: Data, existing: map<string, Secret>, run: Run)
    requires ValidSpec(s.provider.spec)
    requires env.keyValuesFetched < |s.store.keyValues| && env.featureFlagsFetched < |s.store.featureFlags|
    requires run == StartRun(recon, s.cluster).(shouldReconcile := true)
    ensures var first := FullReconciliation(c, s.provider, s.store, env, run);
            first.Go? ==>
              var second := FeatureFlagRefresh(c, s.provider, s.store, env, data, first.run);
              second.Go? ==>
                var third := KeyValueRefresh(c, s.provider, s.store, env, data, second.run);
                third.Go? ==>
                  var last := SecretReferenceRefresh(c, s.provider, env, existing, third.run);
                  last.Go? && AsCalled(s, recon, env, true, last.run)
    ensures var first := FullReconciliation(c, s.provider, s.store, env, run);
            && first.run.trace == [CreateTargetSettings]
            && (first.Go? ==>
                  var second := FeatureFlagRefresh(c, s.provider, s.store, env, data, first.run);
                  second.Go? && KeyValueRefresh(c, s.provider, s.store, env, data, second.run).Go?)
  {
    hide FullReconciliation, FeatureFlagRefresh, KeyValueRefresh, SecretReferenceRefresh, RefreshUpdates;
    LoadCalled(c, s.provider, s.store, env, run);
    var first := FullReconciliation(c, s.provider, s.store, env, run);
    if first.Go? {
      FlagsCalled(c, s.provider, s.store, env, data, first.run);
      FlagsOfLoad(c, s.provider, s.store, env, data, first.run);
      FlagsKeepChecks(c, s.provider.spec, s.provider, s.store, env, data, first.run);
      var second := FeatureFlagRefresh(c, s.provider, s.store, env, data, first.run);
      KeyValuesCalled(c, s.provider, s.store, env, data, second.run);
      KeyValuesOfLoad(c, s.provider, s.store, env, data, second.run);
      var third := KeyValueRefresh(c, s.provider, s.store, env, data, second.run);
      ReferencesCalled(c, s.provider, env, existing, third.run);
      SecretsOfLoad(c, s.provider, env, existing, third.run);
    }
  }

  lemma FlagDeadlineIsApart(spec: Spec, store: Store, env: Env, recon: Recon, due: Time)
    ensures var moved := recon.(nextFeatureFlag := due);
            && KeyValuesDue(spec, moved, env) == KeyValuesDue(spec, recon, env)
            && KeyValuesReload(spec, store, moved, env) == KeyValuesReload(spec, store, recon, env)
            && KeyValueCalls(spec, store, moved, env) == KeyValueCalls(spec, store, recon, env)
            && KeyValuesChanged(spec, store, moved, env) == KeyValuesChanged(spec, store, recon, env)
            && (KeyValuesReload(spec, store, recon, env)
                <==> KeyValuesDue(spec, recon, env) && KeyValuesChanged(spec, store, recon, env))
  {
  }

  // ---------------------------------------------------------------- writing and deleting

  /** A write of the ConfigMap is needed: there is none, or it is empty, or a reader finds something
      else in it. */
  predicate MapIsStale(c: Codec, options: Option<DataOptions>, live: Option<Data>, latest: Data) {
    || live.None? || live.value == map[]
    || if IsDocument(options)
       then options.value.key !in live.value
            || c.parse(options.value.kind, live.value[options.value.key]) != ParsedAt(c, latest, options.value)
       else live.value != latest
  }

  /** A write of a Secret is needed: there is none, or a reader finds something else in it, or it is
      to be empty and is no copy of what is live. */
  predicate SecretIsStale(c: Codec, secret: SecretSpec, n: string, live: Option<Data>, latest: Data, copied: bool) {
    || live.None?
    || if n == secret.target && IsDocument(secret.secretData)
       then ParsedAt(c, live.value, secret.secretData.value) != ParsedAt(c, latest, secret.secretData.value)
       else live.value != latest || (latest == map[] && !copied)
  }

  lemma MapCalled(c: Codec, provider: Provider, env: Env, run: Run)
    requires run.settings.configMap.Some?
    ensures var step, name := WriteConfigMap(c, provider, env, run), provider.spec.configMapName;
            var live := if name in run.cluster.configMaps then Some(run.cluster.configMaps[name].data) else None;
            step.Go? ==>
              && step.run.trace
                 == run.trace + (if MapIsStale(c, provider.spec.configMapData, live, run.settings.configMap.value)
                                 then [PutConfigMap] else [])
              && step.run.options == run.options && step.run.shouldReconcile == run.shouldReconcile
              && step.run.recon == run.recon.(configMapVersion := step.run.recon.configMapVersion)
    ensures var step, name := WriteConfigMap(c, provider, env, run), provider.spec.configMapName;
            var live := if name in run.cluster.configMaps then Some(run.cluster.configMaps[name].data) else None;
            !step.Go? ==>
              MapIsStale(c, provider.spec.configMapData, live, run.settings.configMap.value)
              && step.run.trace == run.trace + [PutConfigMap]
  {
  }

  lemma OneWriteCalled(c: Codec, provider: Provider, env: Env, existing: map<string, Secret>, name: string, run: Run)
    requires name in run.settings.secrets && name in MetadataOf(run) && provider.spec.secret.Some?
    ensures var step := WriteOneSecret(c, provider, env, existing, name, run);
            var live := if name in existing then Some(existing[name].data) else None;
            step.Go? ==>
              && step.run.trace
                 == run.trace + (if SecretIsStale(c, provider.spec.secret.value, name, live,
                                                  run.settings.secrets[name].data, run.settings.metadata.Shared?)
                                 then [PutSecret(name)] else [])
              && step.run.settings.secrets == run.settings.secrets
              && step.run.settings.metadata.Shared? == run.settings.metadata.Shared?
              && MetadataOf(step.run).Keys == MetadataOf(run).Keys
    ensures var step := WriteOneSecret(c, provider, env, existing, name, run);
            var live := if name in existing then Some(existing[name].data) else None;
            !step.Go? ==>
              && SecretIsStale(c, provider.spec.secret.value, name, live, run.settings.secrets[name].data,
                               run.settings.metadata.Shared?)
              && step.run.trace == run.trace + [PutSecret(name)]
  {
    hide ParsedAt;
  }

  /** The Secrets that are stale, in the given order. */
  function StaleSecrets(c: Codec, secret: SecretSpec, existing: map<string, Secret>,
                        secrets: map<string, SecretContent>, copied: bool, names: seq<string>): seq<Call>
    requires forall n :: n in names ==> n in secrets
  {
    if names == [] then []
    else
      var n, rest := names[0], StaleSecrets(c, secret, existing, secrets, copied, names[1..]);
      var live := if n in existing then Some(existing[n].data) else None;
      if SecretIsStale(c, secret, n, live, secrets[n].data, copied) then [PutSecret(n)] + rest else rest
  }

  lemma {:induction false} WritesCalled(c: Codec, provider: Provider, env: Env, existing: map<string, Secret>,
                                        names: seq<string>, run: Run)
    requires provider.spec.secret.Some?
    requires forall n :: n in names ==> n in run.settings.secrets && n in MetadataOf(run)
    ensures var step := WriteSecrets(c, provider, env, existing, names, run);
            step.Go? ==>
              && step.run.trace
                 == run.trace + StaleSecrets(c, provider.spec.secret.value, existing, run.settings.secrets,
                                             run.settings.metadata.Shared?, names)
              && MetadataOf(step.run).Keys == MetadataOf(run).Keys
    ensures WriteSecrets(c, provider, env, existing, names, run).run.trace
            <= run.trace + StaleSecrets(c, provider.spec.secret.value, existing, run.settings.secrets,
                                        run.settings.metadata.Shared?, names)
    decreases names
  {
    hide WriteOneSecret, SecretIsStale;
    if names != [] {
      OneWriteCalled(c, provider, env, existing, names[0], run);
      var step := WriteOneSecret(c, provider, env, existing, names[0], run);
      if step.Go? {
        WritesCalled(c, provider, env, existing, names[1..], step.run);
      }
    }
  }

  /** The deletions of what is not kept, in the given order. */
  function Expelled(keep: set<string>, names: seq<string>): seq<Call> {
    if names == [] then []
    else (if names[0] in keep then [] else [DeleteSecret(names[0])]) + Expelled(keep, names[1..])
  }

  lemma {:induction false} ExpelsCalled(env: Env, keep: set<string>, names: seq<string>, run: Run)
    ensures var step := ExpelSecrets(env, keep, names, run);
            step.run.trace <= run.trace + Expelled(keep, names)
            && (step.Go? ==> step.run.trace == run.trace + Expelled(keep, names))
    decreases names
  {
    if names != [] {
      if names[0] in keep {
        ExpelsCalled(env, keep, names[1..], run);
      } else {
        var call := DeleteSecret(names[0]);
        var deleted := Called(run, call).(cluster := run.cluster.(secrets := run.cluster.secrets - {names[0]}));
        ExpelsCalled(env, keep, names[1..], deleted);
      }
    }
  }

  /** Stale Secrets are written in the order of one map, and what is live and not wanted is deleted in
      the order of another. */
  function SecretCallsOf(c: Codec, secret: SecretSpec, env: Env, live: map<string, Secret>,
                         secrets: map<string, SecretContent>, copied: bool): seq<Call>
    requires ListsKeys(env)
  {
    var names := env.order(secrets.Keys);
    assert Lists(names, secrets.Keys);
    StaleSecrets(c, secret, live, secrets, copied, names) + Expelled(secrets.Keys, env.order(live.Keys))
  }

  lemma SyncCalled(c: Codec, s: State, env: Env, recon: Recon, run: Run)
    requires ListsKeys(env) && ReadyToSync(s, recon, run)
    requires run.options.secretSettingPopulated ==> s.provider.spec.secret.Some?
    ensures var step := SyncSecrets(c, s.provider, env, Existing(s, recon), run);
            step.Go? ==>
              step.run.trace
              == run.trace
                + if !run.options.secretSettingPopulated then []
                  else SecretCallsOf(c, s.provider.spec.secret.value, env,
                                     Live(s.cluster,
                                          NamesToCollect(s.provider.spec, recon) + run.settings.secrets.Keys),
                                     run.settings.secrets, run.settings.metadata.Shared?)
  {
    hide WriteSecrets, ExpelSecrets, StaleSecrets, Expelled, Existing, ReadsNew, Live, Collected;
    var existing := Existing(s, recon);
    if !run.options.secretSettingPopulated {
      if s.provider.spec.secret.None? {
        NothingToExpel(c, s, env, recon, run);
      }
    } else if ReadsNew(s.provider, env, existing, run) {
      SameCluster(s, recon, run);
      CollectedByPlan(s, recon, run);
      var names, collected := env.order(run.settings.secrets.Keys), Collected(existing, run);
      assert Lists(names, run.settings.secrets.Keys);
      WritesCalled(c, s.provider, env, collected, names, run);
      var step := WriteSecrets(c, s.provider, env, collected, names, run);
      if step.Go? {
        ExpelsCalled(env, MetadataOf(step.run).Keys, env.order(collected.Keys), step.run);
      }
    }
  }

  // ---------------------------------------------------------------- main results

  /** The write of the ConfigMap, if there is data for it and it is stale. */
  function MapCalls(c: Codec, spec: Spec, cluster: Cluster, data: Option<Data>): seq<Call> {
    var name := spec.configMapName;
    var live := if name in cluster.configMaps then Some(cluster.configMaps[name].data) else None;
    if data.Some? && MapIsStale(c, spec.configMapData, live, data.value) then [PutConfigMap] else []
  }

  lemma WrittenAsCalled(c: Codec, s: State, env: Env, start: Store, recon: Recon)
    requires Prepared(c, false, s, env, start, recon)
    ensures var full, step := LoadsInFull(s, recon), PopulateAndWrite(c, s, env, recon);
            step.Go? ==>
              && step.run.trace
                 == PopulatingCalls(s.provider.spec, s.store, recon, env, full)
                    + MapCalls(c, s.provider.spec, s.cluster, PlannedData(c, s, recon, env, full))
              && step.run.shouldReconcile == full
              && AsCalled(s, recon, env, full, step.run.(trace := PopulatingCalls(s.provider.spec, s.store, recon, env,
                                                                                  full)))
              && step.run.recon == Populating(c, s, env, recon).run.recon.(configMapVersion :=
                                                                           step.run.recon.configMapVersion)
  {
    hide PopulateSettings, WriteConfigMap, Invariant, ShouldReconcile, PlannedData, PlannedSecrets, SecretsLoad,
         MapIsStale, PopulatingCalls, LoadedSentinels, RefreshUpdates;
    PopulatedAsCalled(c, s, env, start, recon);
    PopulatedAsPlanned(c, s, env, start, recon);
    var existing := Live(s.cluster, NamesToCollect(s.provider.spec, recon));
    var v, w := PopulateFacts(c, false, s, env, start, recon, existing);
    var populated := Populating(c, s, env, recon);
    if populated.Go? && populated.run.options.configMapSettingPopulated {
      MapCalled(c, s.provider, env, populated.run);
    }
  }

  /** What the calls of a reconcile depend on, from before it is prepared. */
  lemma PreparedCalls(s: State, env: Env, store: Store)
    requires Prepare(s.provider, s.cluster, s.recon, env).1.Some?
    ensures var before, recon := s.recon.GetOr(INITIAL), Prepare(s.provider, s.cluster, s.recon, env).1.value;
            && recon == before.(secrets := recon.secrets, configMapVersion := recon.configMapVersion,
                                hasClientManager := recon.hasClientManager)
            && (forall full :: PopulatingCalls(s.provider.spec, store, recon, env, full)
                               == PopulatingCalls(s.provider.spec, store, before, env, full))
            && RefreshUpdates(s.provider.spec, store, recon, env)
               == RefreshUpdates(s.provider.spec, store, before, env)
  {
  }

  /** The calls of a reconcile that is done, in their order: a full load, or the checks and loads that
      are due; the ConfigMap, if it is stale; the Secrets that are stale; and the deletion of those
      that are not wanted. */
  lemma DoneCallsExactly(c: Codec, s: State, env: Env, store: Store)
    requires Inverse(c) && Invariant(c, false, s) && ValidEnv(env, s.store, store)
    ensures var t, full, r := s.(store := store), !InStep(s), Reconcile(c, s.(store := store), env);
            var recon, spec := Prepare(s.provider, s.cluster, s.recon, env).1, s.provider.spec;
            r.outcome.Done? ==>
              && ValidSpec(spec) && recon.Some?
              && var data, secrets := PlannedData(c, t, recon.value, env, full),
                                      PlannedSecrets(c, t, recon.value, env, full);
                 && (secrets.Some? ==> spec.secret.Some?)
                 && r.trace
                    == PopulatingCalls(spec, store, s.recon.GetOr(INITIAL), env, full)
                       + MapCalls(c, spec, s.cluster, data)
                       + if secrets.None? then []
                         else SecretCallsOf(c, spec.secret.value, env,
                                            Live(s.cluster, NamesToCollect(spec, recon.value) + secrets.value.Keys),
                                            secrets.value, !SecretsLoad(t, recon.value, env, full))
  {
    hide PopulateAndWrite, SyncSecrets, Prepare, Invariant, Prepared, Existing, InStep, ShouldReconcile, ReadyToSync,
         PlannedData, PlannedSecrets, SecretsLoad, PopulatingEnding, Reads, DataGoes, MapCalls, SecretCallsOf,
         PopulatingCalls, RefreshUpdates, AsCalled;
    var r := Reconcile(c, s.(store := store), env);
    if r.outcome.Done? {
      var (ready, recon) := Prepare(s.provider, s.cluster, s.recon, env);
      MiddleFacts(c, s, env, store, recon);
      PreparedDrift(c, s, env, recon);
      PreparedCalls(s, env, store);
      var t, prepared := s.(store := store), s.(store := store, recon := recon);
      ExistingIs(prepared, recon.value);
      DataGoesExactly(c, prepared, env, s.store, recon.value);
      WrittenAsCalled(c, prepared, env, s.store, recon.value);
      SamePlan(c, t, recon, env, !InStep(s));
      OnlyWithSection(c, t, recon.value, env, !InStep(s));
      SyncCalled(c, prepared, env, recon.value, PopulateAndWrite(c, prepared, env, recon.value).run);
    }
  }

  lemma WrittenBegins(c: Codec, s: State, env: Env, start: Store, recon: Recon)
    requires Prepared(c, false, s, env, start, recon)
    ensures var full := LoadsInFull(s, recon);
            PopulateAndWrite(c, s, env, recon).run.trace
            <= PopulatingCalls(s.provider.spec, s.store, recon, env, full)
               + MapCalls(c, s.provider.spec, s.cluster, PlannedData(c, s, recon, env, full))
  {
    hide PopulateSettings, WriteConfigMap, Invariant, ShouldReconcile, PlannedData, PlannedSecrets, SecretsLoad,
         MapIsStale, PopulatingCalls, LoadedSentinels, RefreshUpdates;
    PopulatedBegins(c, s, env, start, recon);
    WrittenAsCalled(c, s, env, start, recon);
    PopulatedAsCalled(c, s, env, start, recon);
    PopulatedAsPlanned(c, s, env, start, recon);
    var existing := Live(s.cluster, NamesToCollect(s.provider.spec, recon));
    var v, w := PopulateFacts(c, false, s, env, start, recon, existing);
    var populated := Populating(c, s, env, recon);
    if populated.Go? && populated.run.options.configMapSettingPopulated {
      MapCalled(c, s.provider, env, populated.run);
    }
  }

  lemma SyncBegins(c: Codec, s: State, env: Env, recon: Recon, run: Run)
    requires ListsKeys(env) && ReadyToSync(s, recon, run)
    requires run.options.secretSettingPopulated ==> s.provider.spec.secret.Some?
    ensures SyncSecrets(c, s.provider, env, Existing(s, recon), run).run.trace
            <= run.trace
              + if !run.options.secretSettingPopulated then []
                else SecretCallsOf(c, s.provider.spec.secret.value, env,
                                   Live(s.cluster,
                                        NamesToCollect(s.provider.spec, recon) + run.settings.secrets.Keys),
                                   run.settings.secrets, run.settings.metadata.Shared?)
  {
    hide WriteSecrets, ExpelSecrets, StaleSecrets, Expelled, Existing, ReadsNew, Live, Collected;
    var existing := Existing(s, recon);
    if !run.options.secretSettingPopulated {
      if s.provider.spec.secret.None? {
        NothingToExpel(c, s, env, recon, run);
      }
    } else if ReadsNew(s.provider, env, existing, run) {
      SameCluster(s, recon, run);
      CollectedByPlan(s, recon, run);
      var names, collected := env.order(run.settings.secrets.Keys), Collected(existing, run);
      assert Lists(names, run.settings.secrets.Keys);
      WritesCalled(c, s.provider, env, collected, names, run);
      var step := WriteSecrets(c, s.provider, env, collected, names, run);
      var puts := StaleSecrets(c, s.provider.spec.secret.value, collected, run.settings.secrets,
                               run.settings.metadata.Shared?, names);
      var deletes := Expelled(run.settings.secrets.Keys, env.order(collected.Keys));
      assert run.trace + (puts + deletes) == run.trace + puts + deletes;
      if step.Go? {
        ExpelsCalled(env, MetadataOf(step.run).Keys, env.order(collected.Keys), step.run);
      } else {
        Begins(step.run.trace, run.trace + puts, deletes);
      }
    }
  }

  /** A reconcile that is not done has made the first ones of the calls that it would have made. */
  lemma OthersBegin(c: Codec, s: State, env: Env, store: Store)
    requires Inverse(c) && Invariant(c, false, s) && ValidEnv(env, s.store, store) && ValidSpec(s.provider.spec)
    ensures var t, full, r := s.(store := store), !InStep(s), Reconcile(c, s.(store := store), env);
            var recon, spec := Prepare(s.provider, s.cluster, s.recon, env).1, s.provider.spec;
            if recon.None? then r.trace == []
            else
              var data, secrets := PlannedData(c, t, recon.value, env, full),
                                   PlannedSecrets(c, t, recon.value, env, full);
              && (secrets.Some? ==> spec.secret.Some?)
              && r.trace
                 <= PopulatingCalls(spec, store, s.recon.GetOr(INITIAL), env, full)
                    + MapCalls(c, spec, s.cluster, data)
                    + if secrets.None? then []
                      else SecretCallsOf(c, spec.secret.value, env,
                                         Live(s.cluster, NamesToCollect(spec, recon.value) + secrets.value.Keys),
                                         secrets.value, !SecretsLoad(t, recon.value, env, full))
  {
    hide PopulateAndWrite, SyncSecrets, Prepare, Invariant, Prepared, Existing, InStep, ShouldReconcile, ReadyToSync,
         PlannedData, PlannedSecrets, SecretsLoad, PopulatingEnding, Reads, DataGoes, MapCalls, SecretCallsOf,
         PopulatingCalls, RefreshUpdates, AsCalled;
    var (ready, recon) := Prepare(s.provider, s.cluster, s.recon, env);
    var t := s.(store := store);
    ListsKeysIsValid(env, s.store, store);
    if recon.Some? {
      OnlyWithSection(c, t, recon.value, env, !InStep(s));
    }
    if !s.running && ready {
      MiddleFacts(c, s, env, store, recon);
      PreparedDrift(c, s, env, recon);
      PreparedCalls(s, env, store);
      var prepared := s.(store := store, recon := recon);
      ExistingIs(prepared, recon.value);
      DataGoesExactly(c, prepared, env, s.store, recon.value);
      WrittenBegins(c, prepared, env, s.store, recon.value);
      WrittenAsCalled(c, prepared, env, s.store, recon.value);
      SamePlan(c, t, recon, env, !InStep(s));
      var written := PopulateAndWrite(c, prepared, env, recon.value);
      if written.Go? {
        SyncBegins(c, prepared, env, recon.value, written.run);
      }
    }
  }

  /** Which of the store's calls are made, told from the spec, the deadlines and the recorded ETags. */
  ghost predicate AreDueCalls(calls: seq<Call>, spec: Spec, store: Store, before: Recon, env: Env, full: bool) {
    var flags := !full && spec.featureFlag.Some? && spec.featureFlag.value.Some?
                 && spec.featureFlag.value.value.enabled && env.now > before.nextFeatureFlag;
    var keyValues := !full && spec.keyValueRefresh.Some? && spec.keyValueRefresh.value.enabled
                     && env.now > before.nextKeyValue;
    var secrets := !full && spec.secret.Some? && spec.secret.value.refresh.Some?
                   && spec.secret.value.refresh.value.enabled && env.now > before.nextSecret;
    var changed := if spec.monitoring then before.sentinelETags != Some(SentinelAt(store, env.sentinelChecked))
                   else before.keyValueETags.Some? && before.keyValueETags.value != env.keyValuesChecked;
    && (CreateTargetSettings in calls <==> full)
    && (CheckFeatureFlagETags in calls <==> flags)
    && (RefreshFeatureFlagSettings in calls <==>
          flags && before.featureFlagETags.Some? && before.featureFlagETags.value != env.featureFlagsChecked)
    && (CheckSentinels in calls <==> keyValues && spec.monitoring)
    && (CheckKeyValueETags in calls <==> keyValues && !spec.monitoring)
    && (RefreshKeyValueSettings in calls <==> keyValues && changed)
    && (ResolveSecretReferences in calls <==> secrets && !(keyValues && changed))
  }

  lemma PopulatingCallsAreDue(spec: Spec, store: Store, before: Recon, env: Env, full: bool)
    ensures AreDueCalls(PopulatingCalls(spec, store, before, env, full), spec, store, before, env, full)
  {
    var a, b, d := FlagCalls(spec, before, env), KeyValueCalls(spec, store, before, env),
                   ReferenceCalls(spec, store, before, env);
    assert forall call :: call in a + b + d <==> call in a || call in b || call in d;
  }

  lemma LaterDoNotMatter(calls: seq<Call>, later: seq<Call>, spec: Spec, store: Store, before: Recon, env: Env,
                         full: bool)
    requires AreDueCalls(calls, spec, store, before, env, full)
    requires forall call :: call in later ==> call.PutConfigMap? || call.PutSecret? || call.DeleteSecret?
    ensures AreDueCalls(calls + later, spec, store, before, env, full)
  {
    var all := calls + later;
    assert forall call :: call in all <==> call in calls || call in later;
  }

  /** A reconcile that is done makes exactly the calls of the store that are due. */
  lemma CallsWhenDueExactly(c: Codec, s: State, env: Env, store: Store)
    requires Inverse(c) && Invariant(c, false, s) && ValidEnv(env, s.store, store)
    ensures var r := Reconcile(c, s.(store := store), env);
            r.outcome.Done? ==> AreDueCalls(r.trace, s.provider.spec, store, s.recon.GetOr(INITIAL), env, !InStep(s))
  {
    hide Reconcile, Prepare, Invariant, InStep, PopulatingCalls, AreDueCalls;
    var r, spec := Reconcile(c, s.(store := store), env), s.provider.spec;
    if r.outcome.Done? {
      var before, full := s.recon.GetOr(INITIAL), !InStep(s);
      var populating := PopulatingCalls(spec, store, before, env, full);
      LaterCalls(c, s, env, store);
      PopulatingCallsAreDue(spec, store, before, env, full);
      LaterDoNotMatter(populating, r.trace[|populating|..], spec, store, before, env, full);
      assert r.trace == populating + r.trace[|populating|..];
    }
  }

  /** After populating, only objects of the cluster are written and deleted. */
  lemma LaterCalls(c: Codec, s: State, env: Env, store: Store)
    requires Inverse(c) && Invariant(c, false, s) && ValidEnv(env, s.store, store)
    ensures var r := Reconcile(c, s.(store := store), env);
            var populating := PopulatingCalls(s.provider.spec, store, s.recon.GetOr(INITIAL), env, !InStep(s));
            r.outcome.Done? ==>
              && populating <= r.trace
              && forall call :: call in r.trace[|populating|..] ==>
                   call.PutConfigMap? || call.PutSecret? || call.DeleteSecret?
  {
    hide Reconcile, Prepare, Invariant, InStep, PlannedData, PlannedSecrets, SecretsLoad, PopulatingCalls, Live,
         NamesToCollect;
    DoneCallsExactly(c, s, env, store);
    var r, spec := Reconcile(c, s.(store := store), env), s.provider.spec;
    if r.outcome.Done? {
      var t, full := s.(store := store), !InStep(s);
      var recon := Prepare(s.provider, s.cluster, s.recon, env).1.value;
      var secrets := PlannedSecrets(c, t, recon, env, full);
      if secrets.Some? {
        var live := Live(s.cluster, NamesToCollect(spec, recon) + secrets.value.Keys);
        OnlySecretCalls(c, spec.secret.value, env, live, secrets.value, !SecretsLoad(t, recon, env, full));
      }
    }
  }

  lemma OnlySecretCalls(c: Codec, secret: SecretSpec, env: Env, live: map<string, Secret>,
                        secrets: map<string, SecretContent>, copied: bool)
    requires ListsKeys(env)
    ensures forall call :: call in SecretCallsOf(c, secret, env, live, secrets, copied) ==>
              call.PutSecret? || call.DeleteSecret?
  {
    var names := env.order(secrets.Keys);
    assert Lists(names, secrets.Keys);
    StaleArePut(c, secret, live, secrets, copied, names);
    ExpelledAreDeleted(secrets.Keys, env.order(live.Keys));
  }

  /** Exactly the listed Secrets that are stale are written. */
  lemma {:induction false} StaleArePut(c: Codec, secret: SecretSpec, existing: map<string, Secret>,
                                       secrets: map<string, SecretContent>, copied: bool, names: seq<string>)
    requires forall n :: n in names ==> n in secrets
    ensures forall call :: call in StaleSecrets(c, secret, existing, secrets, copied, names) <==>
              && call.PutSecret? && call.name in names
              && SecretIsStale(c, secret, call.name,
                               if call.name in existing then Some(existing[call.name].data) else None,
                               secrets[call.name].data, copied)
    decreases names
  {
    hide SecretIsStale;
    if names != [] {
      StaleArePut(c, secret, existing, secrets, copied, names[1..]);
    }
  }

  /** Exactly the listed Secrets that are not kept are deleted. */
  lemma {:induction false} ExpelledAreDeleted(keep: set<string>, names: seq<string>)
    ensures forall call :: call in Expelled(keep, names) <==>
              call.DeleteSecret? && call.name in names && call.name !in keep
    decreases names
  {
    if names != [] {
      ExpelledAreDeleted(keep, names[1..]);
    }
  }

  /** What the write of the ConfigMap leaves: nothing is written unless it is needed; a write that is
      lost leaves the cluster as it is; one that is made leaves the data, also if its acknowledgement
      is lost, but then its version is not recorded. */
  lemma MapWriteExactly(c: Codec, s: State, env: Env, store: Store)
    requires Inverse(c) && Invariant(c, false, s) && ValidEnv(env, s.store, store)
    ensures var t, full, r := s.(store := store), !InStep(s), Reconcile(c, s.(store := store), env);
            var spec, (ready, recon) := s.provider.spec, Prepare(s.provider, s.cluster, s.recon, env);
            !s.running && ValidSpec(spec) && ready && recon.Some?
            && EndingOf(t, env, recon.value, full) == Through && r.state.recon.Some? ==>
              var name, data := spec.configMapName, PlannedData(c, t, recon.value, env, full);
              var live := if name in r.state.cluster.configMaps then Some(r.state.cluster.configMaps[name]) else None;
              if MapCalls(c, spec, s.cluster, data) == [] then r.state.cluster.configMaps == s.cluster.configMaps
              else match env.fault(PutConfigMap)
                case Lost => r.outcome.Failed? && r.state.cluster == s.cluster
                case Unacknowledged =>
                  && r.outcome.Failed? && live.Some? && Some(live.value.data) == data
                  && r.state.recon.value.configMapVersion == recon.value.configMapVersion
                case Fine =>
                  && live.Some? && Some(live.value.data) == data && live.value.version == s.cluster.nextVersion
                  && r.state.recon.value.configMapVersion == Some(live.value.version)
  {
    hide PopulateSettings, WriteConfigMap, SyncSecrets, Prepare, Invariant, Prepared, Existing, InStep, ShouldReconcile,
         ReadyToSync, PlannedData, PlannedSecrets, SecretsLoad, PopulatingEnding, MapCalls, KeepsCore;
    var (ready, recon) := Prepare(s.provider, s.cluster, s.recon, env);
    if !s.running && ValidSpec(s.provider.spec) && ready && recon.Some?
       && EndingOf(s.(store := store), env, recon.value, !InStep(s)) == Through {
      MiddleFacts(c, s, env, store, recon);
      PreparedDrift(c, s, env, recon);
      var t, prepared := s.(store := store), s.(store := store, recon := recon);
      ExistingIs(prepared, recon.value);
      SamePlan(c, t, recon, env, !InStep(s));
      PopulatingEndsExactly(c, prepared, env, s.store, recon.value);
      PopulatedAsPlanned(c, prepared, env, s.store, recon.value);
      var existing := Live(s.cluster, NamesToCollect(s.provider.spec, recon.value));
      var v, w := PopulateFacts(c, false, prepared, env, s.store, recon.value, existing);
      var populated := Populating(c, prepared, env, recon.value);
      PopulatingKeepsMap(c, prepared, env, s.store, recon.value);
      NothingToPut(c, s.provider.spec, s.cluster);
      if populated.run.options.configMapSettingPopulated {
        PutLeaves(c, s.provider, env, populated.run, s.cluster);
      }
      var written := PopulateAndWrite(c, prepared, env, recon.value);
      if written.Go? {
        SyncSecretsKeepsCore(c, s.provider, env, existing, written.run);
        KeepsCoreMap(written.run, SyncSecrets(c, s.provider, env, existing, written.run).run);
      }
    }
  }

  lemma NothingToPut(c: Codec, spec: Spec, cluster: Cluster)
    ensures MapCalls(c, spec, cluster, None) == []
  {
  }

  lemma KeepsCoreMap(before: Run, after: Run)
    requires KeepsCore(before, after)
    ensures after.cluster.configMaps == before.cluster.configMaps
    ensures after.recon.configMapVersion == before.recon.configMapVersion
  {
  }

  lemma PopulatingKeepsMap(c: Codec, s: State, env: Env, start: Store, recon: Recon)
    requires Prepared(c, false, s, env, start, recon)
    ensures var run := Populating(c, s, env, recon).run;
            run.cluster == s.cluster && run.recon.configMapVersion == recon.configMapVersion
  {
    hide PopulateSettings, Invariant;
    var existing := Live(s.cluster, NamesToCollect(s.provider.spec, recon));
    var v, w := PopulateFacts(c, false, s, env, start, recon, existing);
  }

  lemma PutLeaves(c: Codec, provider: Provider, env: Env, run: Run, before: Cluster)
    requires run.cluster == before && run.settings.configMap.Some?
    ensures var step, name, data := WriteConfigMap(c, provider, env, run), provider.spec.configMapName,
                                    run.settings.configMap;
            var after := step.run.cluster.configMaps;
            step.run.panicked == run.panicked &&
            if MapCalls(c, provider.spec, before, data) == []
            then step.Go? && step.run.cluster == before
            else match env.fault(PutConfigMap)
              case Lost => step.Stop? && step.run.cluster == before
              case Unacknowledged =>
                step.Stop? && name in after && after[name].data == data.value
                && step.run.recon.configMapVersion == run.recon.configMapVersion
              case Fine =>
                step.Go? && name in after && after[name].data == data.value && after[name].version == before.nextVersion
                && step.run.recon.configMapVersion == Some(before.nextVersion)
  {
  }

  /** What a reconcile that is done records: the generation and annotations of the provider, and the
      ETags of what it fetched, or, for sentinels, of what it checked. */
  lemma DoneRecordsExactly(c: Codec, s: State, env: Env, store: Store)
    requires Inverse(c) && Invariant(c, false, s) && ValidEnv(env, s.store, store)
    ensures var r, spec, before := Reconcile(c, s.(store := store), env), s.provider.spec, s.recon.GetOr(INITIAL);
            r.outcome.Done? ==>
              r.state.recon.Some?
              && var after := r.state.recon.value;
                 && after.generation == s.provider.generation && after.annotations == s.provider.annotations
                 && after.keyValueETags
                    == (if !InStep(s) || (KeyValuesReload(spec, store, before, env) && !spec.monitoring)
                        then Some(env.keyValuesFetched) else before.keyValueETags)
                 && after.featureFlagETags
                    == (if (!InStep(s) && spec.featureFlag.Some?) || (InStep(s) && FlagsReload(spec, before, env))
                        then Some(env.featureFlagsFetched) else before.featureFlagETags)
                 && after.sentinelETags
                    == (if !InStep(s) then LoadedSentinels(spec, store, env)
                        else if KeyValuesReload(spec, store, before, env) && spec.monitoring
                        then Some(SentinelAt(store, env.sentinelChecked)) else before.sentinelETags)
  {
    hide PopulateAndWrite, SyncSecrets, Prepare, Invariant, Prepared, Existing, InStep, ShouldReconcile, ReadyToSync,
         PlannedData, PopulatingCalls, LoadedSentinels, MapCalls, KeyValuesReload, FlagsReload, KeepsCore;
    var r := Reconcile(c, s.(store := store), env);
    if r.outcome.Done? {
      var (ready, recon) := Prepare(s.provider, s.cluster, s.recon, env);
      MiddleFacts(c, s, env, store, recon);
      PreparedDrift(c, s, env, recon);
      PreparedCalls(s, env, store);
      PreparedReloads(s, env, store);
      FlagDeadlineIsApart(s.provider.spec, store, env, s.recon.GetOr(INITIAL), 0);
      var prepared := s.(store := store, recon := recon);
      WrittenAsCalled(c, prepared, env, s.store, recon.value);
      var written := PopulateAndWrite(c, prepared, env, recon.value);
      PopulatingKeepsETags(c, prepared, env, s.store, recon.value);
      var existing := Live(s.cluster, NamesToCollect(s.provider.spec, recon.value));
      SyncSecretsKeepsCore(c, s.provider, env, existing, written.run);
      var synced := SyncSecrets(c, s.provider, env, existing, written.run).run;
      KeepsCoreOptions(written.run, synced);
      KeepsCoreMode(written.run, synced);
      KeepsCoreETags(written.run, synced);
    }
  }

  lemma KeepsCoreETags(before: Run, after: Run)
    requires KeepsCore(before, after)
    ensures SameETags(before.recon, after.recon)
  {
  }

  predicate SameETags(a: Recon, b: Recon) {
    a.keyValueETags == b.keyValueETags && a.featureFlagETags == b.featureFlagETags
    && a.sentinelETags == b.sentinelETags
  }

  lemma PopulatingKeepsETags(c: Codec, s: State, env: Env, start: Store, recon: Recon)
    requires Prepared(c, false, s, env, start, recon)
    ensures var step := PopulateAndWrite(c, s, env, recon); step.Go? ==> SameETags(step.run.recon, recon)
  {
    hide PopulateSettings, WriteConfigMap, Invariant;
    WrittenAsCalled(c, s, env, start, recon);
    var existing := Live(s.cluster, NamesToCollect(s.provider.spec, recon));
    var v, w := PopulateFacts(c, false, s, env, start, recon, existing);
  }
}
