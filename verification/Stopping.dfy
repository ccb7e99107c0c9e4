/** Which phase stops a populating run, and whether with an error or with a panic, told from the
    faults, the due deadlines and the changed pages alone. */
module Stopping {
  import opened Clock
  import opened Wrappers
  import opened TypedSetting
  import opened ReconcileTypes
  import opened Processor
  import opened Reconciler
  import opened NoLostUpdate
  import opened SecretSync
  import opened Deadlines
  import opened SecretRefresh

  datatype Ending = Through | Fails(phase: Phase) | Panics(phase: Phase)

  /** A full load fails with its call, or at a reference that it cannot take; it panics at
      key-values without a document. */
  function LoadEnding(spec: Spec, content: Content, fault: Fault, phase: Phase): Ending {
    if fault != Fine || !Loadable(spec, content) then Fails(phase)
    else if !content.buildable then Panics(phase)
    else Through
  }

  function FlagEnding(spec: Spec, recon: Recon, env: Env): Ending {
    if !FeatureFlagsDue(spec, recon, env) then Through
    else if env.fault(CheckFeatureFlagETags) != Fine then Fails(FlagPhase)
    else if !PagesChanged(recon.featureFlagETags, env.featureFlagsChecked) then Through
    else if env.fault(RefreshFeatureFlagSettings) != Fine then Fails(FlagPhase)
    else Through
  }

  /** The check of the sentinels, or else of the pages, finds a change. */
  predicate KeyValuesChanged(spec: Spec, store: Store, recon: Recon, env: Env) {
    if spec.monitoring then recon.sentinelETags != Some(SentinelAt(store, env.sentinelChecked))
    else PagesChanged(recon.keyValueETags, env.keyValuesChecked)
  }

  function KeyValueEnding(spec: Spec, store: Store, recon: Recon, env: Env): Ending
    requires env.keyValuesFetched < |store.keyValues|
  {
    if !KeyValuesDue(spec, recon, env) then Through
    else if env.fault(KeyValueCheck(spec)) != Fine then Fails(KeyValuePhase)
    else if !KeyValuesChanged(spec, store, recon, env) then Through
    else LoadEnding(spec, store.keyValues[env.keyValuesFetched], env.fault(RefreshKeyValueSettings), KeyValuePhase)
  }

  /** Secret references that the key-values have not brought along are resolved on their own. */
  function SecretEnding(spec: Spec, recon: Recon, env: Env, existing: map<string, Secret>, populated: bool): Ending {
    if !SecretRefreshEnabled(spec) || env.now <= recon.nextSecret || populated then Through
    else if env.fault(ResolveSecretReferences) != Fine then Fails(SecretPhase)
    else if RenewsIntoNil(env, recon.secrets, existing) then Panics(SecretPhase)
    else Through
  }

  /** How populating ends: a full load can stop only at once, since nothing else is then due. */
  function PopulatingEnding(spec: Spec, store: Store, recon: Recon, env: Env, existing: map<string, Secret>,
                            full: bool): Ending
    requires env.keyValuesFetched < |store.keyValues|
  {
    if full then LoadEnding(spec, store.keyValues[env.keyValuesFetched], env.fault(CreateTargetSettings), FullLoad)
    else
      var flags, keyValues := FlagEnding(spec, recon, env), KeyValueEnding(spec, store, recon, env);
      var reloaded := KeyValuesDue(spec, recon, env) && KeyValuesChanged(spec, store, recon, env);
      if flags != Through then flags
      else if keyValues != Through then keyValues
      else SecretEnding(spec, recon, env, existing, reloaded)
  }

  /** The step ends like this, if it is the step of the phase. */
  predicate EndsAs(step: Step, phase: Phase, ending: Ending) {
    match ending
    case Through => step.Go? && !step.run.panicked
    case Fails(p) => step.Stop? && !step.run.panicked && p == phase
    case Panics(p) => step.Stop? && step.run.panicked && p == phase
  }

  // ---------------------------------------------------------------- phase by phase

  lemma LoadEnds(c: Codec, provider: Provider, store: Store, env: Env, run: Run)
    requires env.keyValuesFetched < |store.keyValues| && env.featureFlagsFetched < |store.featureFlags| && !run.panicked
    ensures var content := store.keyValues[env.keyValuesFetched];
            var step := FullReconciliation(c, provider, store, env, run);
            && EndsAs(step, FullLoad, LoadEnding(provider.spec, content, env.fault(CreateTargetSettings), FullLoad))
            && (step.Go? ==> step.run.shouldReconcile == run.shouldReconcile
                             && step.run.options.secretSettingPopulated == provider.spec.secret.Some?)
  {
    hide Typed, LoadedSettings, Loadable;
  }

  lemma FlagsEnd(c: Codec, still: bool, s: State, env: Env, run: Run, v: nat, w: nat)
    requires ValidSpec(s.provider.spec) && Inverse(c) && Halfway(c, still, s, env, run, v, w)
    requires !run.panicked && !run.shouldReconcile && run.settings.configMap.None?
             && !run.options.secretSettingPopulated
    ensures var spec := s.provider.spec;
            var step := FeatureFlagRefresh(c, s.provider, s.store, env, LiveData(s.cluster, spec.configMapName), run);
            EndsAs(step, FlagPhase, FlagEnding(spec, run.recon, env))
            && (step.Go? ==>
                  && step.run.recon.(nextFeatureFlag := 0) == run.recon.(nextFeatureFlag := 0)
                  && !step.run.shouldReconcile && !step.run.options.secretSettingPopulated)
  {
    hide RefreshFeatureFlags, Halfway;
    if FeatureFlagRefreshEnabled(s.provider.spec) {
      ReloadedFlagsAreFull(c, still, s, env, run, v, w);
    }
  }

  lemma KeyValuesAreReloaded(c: Codec, still: bool, s: State, env: Env, run: Run, v: nat, w: nat)
    requires ValidSpec(s.provider.spec) && Inverse(c) && Halfway(c, still, s, env, run, v, w)
    ensures var spec := s.provider.spec;
            var existing := run.settings.configMap.GetOr(LiveData(s.cluster, spec.configMapName));
            RefreshKeyValues(c, s.store.keyValues[env.keyValuesFetched].settings, existing, spec.featureFlag.Some?,
                             spec.configMapData).Some?
    ensures env.keyValuesFetched < |s.store.keyValues|
  {
    hide Typed, RefreshKeyValues, Reflects, TracksSelected, SentinelsHalfway;
    var spec := s.provider.spec;
    var existing := run.settings.configMap.GetOr(LiveData(s.cluster, spec.configMapName));
    WrittenOrSkippedReflects(c, existing, existing, spec.configMapData);
    KeyValueRefreshIsFull(c, s.store.keyValues[v].settings, Flags(spec, s.store, w),
                          s.store.keyValues[env.keyValuesFetched].settings, existing, spec.configMapData);
  }

  lemma DueKeyValuesEnd(c: Codec, spec: Spec, store: Store, env: Env, existing: Data, due: Time, run: Run)
    requires ValidSpec(spec) && env.keyValuesFetched < |store.keyValues| && KeyValuesDue(spec, run.recon, env)
    requires !run.panicked && !run.options.sentinelChanged && !run.options.keyValuePageETagsChanged
    requires RefreshKeyValues(c, store.keyValues[env.keyValuesFetched].settings, run.settings.configMap.GetOr(existing),
                              spec.featureFlag.Some?, spec.configMapData).Some?
    ensures var step := DueKeyValueRefresh(c, spec, store, env, existing, due, run);
            && EndsAs(step, KeyValuePhase, KeyValueEnding(spec, store, run.recon, env))
            && (step.Go? ==>
                  step.run.recon == run.recon.(nextKeyValue := due) && step.run.shouldReconcile == run.shouldReconcile)
            && (step.Go? ==> step.run.options.secretSettingPopulated
                             == (run.options.secretSettingPopulated
                                 || (KeyValuesChanged(spec, store, run.recon, env) && spec.secret.Some?)))
  {
    hide ReloadKeyValues, RefreshKeyValues, LoadEnding;
    var called := Called(run, KeyValueCheck(spec));
    var checked := CheckedOptions(spec, store, env, run.recon, run.options);
    var reload := Called(WithOptions(called, checked), RefreshKeyValueSettings);
    assert checked.sentinelChanged || checked.keyValuePageETagsChanged <==>
             KeyValuesChanged(spec, store, run.recon, env);
    ReloadEnds(c, spec, store, env, run.settings.configMap.GetOr(existing), due, reload);
  }

  lemma ReloadEnds(c: Codec, spec: Spec, store: Store, env: Env, existing: Data, due: Time, run: Run)
    requires ValidSpec(spec) && env.keyValuesFetched < |store.keyValues| && !run.panicked
    requires RefreshKeyValues(c, store.keyValues[env.keyValuesFetched].settings, existing, spec.featureFlag.Some?,
                              spec.configMapData).Some?
    ensures var content := store.keyValues[env.keyValuesFetched];
            var step := ReloadKeyValues(c, spec, store, env, existing, due, run);
            && EndsAs(step, KeyValuePhase, LoadEnding(spec, content, env.fault(RefreshKeyValueSettings), KeyValuePhase))
            && (step.Go? ==>
                  && step.run.recon == run.recon.(nextKeyValue := due)
                  && step.run.shouldReconcile == run.shouldReconcile
                  && step.run.options.secretSettingPopulated
                     == (run.options.secretSettingPopulated || spec.secret.Some?))
  {
    hide RefreshKeyValues, LoadedSettings, Loadable;
  }

  lemma KeyValuesEnd(c: Codec, still: bool, s: State, env: Env, run: Run, v: nat, w: nat)
    requires ValidSpec(s.provider.spec) && Inverse(c) && Halfway(c, still, s, env, run, v, w)
    requires !run.panicked && !run.shouldReconcile && !run.options.secretSettingPopulated
    requires !run.options.sentinelChanged && !run.options.keyValuePageETagsChanged
    ensures var spec := s.provider.spec;
            var step := KeyValueRefresh(c, s.provider, s.store, env, LiveData(s.cluster, spec.configMapName), run);
            var reloaded := KeyValuesDue(spec, run.recon, env) && KeyValuesChanged(spec, s.store, run.recon, env);
            EndsAs(step, KeyValuePhase, KeyValueEnding(spec, s.store, run.recon, env))
            && (step.Go? ==>
                  && step.run.recon.(nextKeyValue := 0) == run.recon.(nextKeyValue := 0)
                  && step.run.options.secretSettingPopulated == (reloaded && spec.secret.Some?))
  {
    hide DueKeyValueRefresh, Halfway;
    KeyValuesAreReloaded(c, still, s, env, run, v, w);
    var spec := s.provider.spec;
    if KeyValuesDue(spec, run.recon, env) {
      var enabled := WithOptions(run, run.options.(keyValueRefreshEnabled := true));
      assert enabled.settings == run.settings && enabled.recon == run.recon;
      DueKeyValuesEnd(c, spec, s.store, env, LiveData(s.cluster, spec.configMapName),
                      DeadlineAfter(env, spec.keyValueRefresh), enabled);
    }
  }

  lemma SecretsEnd(c: Codec, provider: Provider, env: Env, existing: map<string, Secret>, run: Run)
    requires !run.panicked
    ensures EndsAs(SecretReferenceRefresh(c, provider, env, existing, run), SecretPhase,
                   SecretEnding(provider.spec, run.recon, env, existing, run.options.secretSettingPopulated))
  {
    hide DueSecretRefresh, RenewsIntoNil;
    var spec := provider.spec;
    if SecretRefreshEnabled(spec) && env.now > run.recon.nextSecret && !run.options.secretSettingPopulated {
      var options := run.options.(secretReferenceRefreshEnabled := true, secretReferenceRefreshNeeded := true);
      RefreshFailsExactly(c, spec, env, existing, DeadlineAfter(env, spec.secret.value.refresh),
                          Called(WithOptions(run, options), ResolveSecretReferences));
    }
  }

  // ---------------------------------------------------------------- all phases

  lemma FullLoadEnds(c: Codec, provider: Provider, store: Store, env: Env, data: Data, existing: map<string, Secret>,
                     run: Run)
    requires ValidSpec(provider.spec) && env.featureFlagsFetched < |store.featureFlags|
             && env.keyValuesFetched < |store.keyValues|
    requires run.shouldReconcile && !run.panicked && run.options.secretSettingPopulated == provider.spec.secret.Some?
    ensures var second := FeatureFlagRefresh(c, provider, store, env, data, run);
            && second.Go?
            && var third := KeyValueRefresh(c, provider, store, env, data, second.run);
               && third.Go?
               && var last := SecretReferenceRefresh(c, provider, env, existing, third.run);
                  last.Go? && !last.run.panicked
  {
    hide DueFeatureFlagRefresh, DueKeyValueRefresh, DueSecretRefresh;
  }

  lemma FlagsKeepChecks(c: Codec, spec: Spec, provider: Provider, store: Store, env: Env, data: Data, run: Run)
    requires ValidSpec(provider.spec) && env.featureFlagsFetched < |store.featureFlags|
    ensures var step := FeatureFlagRefresh(c, provider, store, env, data, run);
            && step.run.options.sentinelChanged == run.options.sentinelChanged
            && step.run.options.keyValuePageETagsChanged == run.options.keyValuePageETagsChanged
  {
    hide RefreshFeatureFlags;
  }

  /** The run with which a prepared reconcile starts to populate. */
  function Populating(c: Codec, s: State, env: Env, recon: Recon): Step
    requires ValidSpec(s.provider.spec)
    requires env.keyValuesFetched < |s.store.keyValues| && env.featureFlagsFetched < |s.store.featureFlags|
  {
    PopulateSettings(c, s.provider, s.store, env, OptionalConfigMap(s.cluster, s.provider.spec.configMapName),
                     Existing(s, recon), StartRun(recon, s.cluster))
  }

  /** The phase in which populating stops, and how. */
  lemma PopulatingEndsExactly(c: Codec, s: State, env: Env, start: Store, recon: Recon)
    requires Prepared(c, false, s, env, start, recon)
    ensures var ending :=
      PopulatingEnding(s.provider.spec, s.store, recon, env, Existing(s, recon), LoadsInFull(s, recon));
            var step := Populating(c, s, env, recon);
            var stopped := StoppedIn(c, s.provider, s.store, env,
                                     OptionalConfigMap(s.cluster, s.provider.spec.configMapName),
                                     Existing(s, recon), StartRun(recon, s.cluster));
            match ending
            case Through => step.Go? && !step.run.panicked && stopped.None?
            case Fails(p) => step.Stop? && !step.run.panicked && stopped == Some(p)
            case Panics(p) => step.Stop? && step.run.panicked && stopped == Some(p)
  {
    hide FullReconciliation, FeatureFlagRefresh, KeyValueRefresh, SecretReferenceRefresh, Halfway, Invariant,
         ShouldReconcile,
         LoadEnding, FlagEnding, KeyValueEnding, RenewsIntoNil, KeyValuesChanged;
    var existing := Existing(s, recon);
    var data := LiveData(s.cluster, s.provider.spec.configMapName);
    var first := StartRun(recon, s.cluster);
    if LoadsInFull(s, recon) {
      var run := first.(shouldReconcile := true);
      LoadEnds(c, s.provider, s.store, env, run);
      var loaded := FullReconciliation(c, s.provider, s.store, env, run);
      if loaded.Go? {
        FullLoadEnds(c, s.provider, s.store, env, data, existing, loaded.run);
      }
    } else {
      assert first.(shouldReconcile := false) == first;
      var v, w := NotDueStands(c, false, s, env, start, recon, existing);
      FlagsEnd(c, false, s, env, first, v, w);
      var w' := FeatureFlagRefreshFacts(c, false, s, env, first, v, w);
      FlagsKeepChecks(c, s.provider.spec, s.provider, s.store, env, data, first);
      var second := FeatureFlagRefresh(c, s.provider, s.store, env, data, first);
      if second.Go? {
        KeyValuesEnd(c, false, s, env, second.run, v, w');
        var third := KeyValueRefresh(c, s.provider, s.store, env, data, second.run);
        FlagDeadlineDoesNotMatter(s.provider.spec, s.store, env, second.run.recon, recon);
        if third.Go? {
          SecretsEnd(c, s.provider, env, existing, third.run);
          KeyValueDeadlineDoesNotMatter(s.provider.spec, env, existing, third.run.recon, second.run.recon, recon);
        }
      }
    }
  }

  lemma FlagDeadlineDoesNotMatter(spec: Spec, store: Store, env: Env, a: Recon, b: Recon)
    requires env.keyValuesFetched < |store.keyValues| && a.(nextFeatureFlag := 0) == b.(nextFeatureFlag := 0)
    ensures KeyValueEnding(spec, store, a, env) == KeyValueEnding(spec, store, b, env)
    ensures KeyValuesDue(spec, a, env) == KeyValuesDue(spec, b, env)
    ensures KeyValuesChanged(spec, store, a, env) == KeyValuesChanged(spec, store, b, env)
  {
    var t := a.(nextFeatureFlag := 0);
    assert a.nextKeyValue == t.nextKeyValue && a.keyValueETags == t.keyValueETags && a.sentinelETags == t.sentinelETags;
  }

  lemma KeyValueDeadlineDoesNotMatter(spec: Spec, env: Env, existing: map<string, Secret>, a: Recon, b: Recon, d: Recon)
    requires a.(nextKeyValue := 0) == b.(nextKeyValue := 0) && b.(nextFeatureFlag := 0) == d.(nextFeatureFlag := 0)
    ensures forall populated: bool ::
              SecretEnding(spec, a, env, existing, populated) == SecretEnding(spec, d, env, existing, populated)
  {
    hide RenewsIntoNil;
    assert a.(nextKeyValue := 0).secrets == a.secrets == b.secrets == d.secrets by {
      assert b.(nextFeatureFlag := 0).secrets == d.(nextFeatureFlag := 0).secrets;
    }
    assert a.(nextKeyValue := 0).nextSecret == a.nextSecret == b.nextSecret == d.nextSecret by {
      assert b.(nextFeatureFlag := 0).nextSecret == d.(nextFeatureFlag := 0).nextSecret;
    }
  }
}
