/** Refresh deadlines: what a reconcile sets them to, when it asks to come back, and how late a
    refresh can be examined. */
module Deadlines {
  import opened Clock
  import opened Wrappers
  import opened TypedSetting
  import opened ReconcileTypes
  import opened Processor
  import opened Reconciler
  import opened SecretSync

  datatype Kind = KeyValue | FeatureFlag | SecretReference

  predicate IsEnabled(spec: Spec, kind: Kind) {
    match kind
    case KeyValue => KeyValueRefreshEnabled(spec)
    case FeatureFlag => FeatureFlagRefreshEnabled(spec)
    case SecretReference => SecretRefreshEnabled(spec)
  }

  predicate AnyEnabled(spec: Spec) {
    IsEnabled(spec, KeyValue) || IsEnabled(spec, FeatureFlag) || IsEnabled(spec, SecretReference)
  }

  function DeadlineOf(recon: Recon, kind: Kind): Time {
    match kind
    case KeyValue => recon.nextKeyValue
    case FeatureFlag => recon.nextFeatureFlag
    case SecretReference => recon.nextSecret
  }

  function IntervalOf(spec: Spec, kind: Kind): Time
    requires IsEnabled(spec, kind)
  {
    match kind
    case KeyValue => spec.keyValueRefresh.value.interval
    case FeatureFlag => spec.featureFlag.value.value.interval
    case SecretReference => spec.secret.value.refresh.value.interval
  }

  /** Examined by this reconcile: due, or covered by a full load. Only the deadline of secret
      references waits for itself even then. */
  predicate IsExamined(spec: Spec, deadline: Time, env: Env, full: bool, kind: Kind) {
    IsEnabled(spec, kind) && (env.now > deadline || (full && kind != SecretReference))
  }

  function NewDeadline(spec: Spec, deadline: Time, env: Env, full: bool, kind: Kind): Time {
    if !IsEnabled(spec, kind) then 0
    else if IsExamined(spec, deadline, env, full, kind) then env.now + IntervalOf(spec, kind)
    else deadline
  }

  /** The state with the deadlines that a reconcile sets. */
  function WithDeadlines(spec: Spec, recon: Recon, env: Env, full: bool): Recon {
    recon.(nextKeyValue := NewDeadline(spec, recon.nextKeyValue, env, full, KeyValue),
           nextFeatureFlag := NewDeadline(spec, recon.nextFeatureFlag, env, full, FeatureFlag),
           nextSecret := NewDeadline(spec, recon.nextSecret, env, full, SecretReference))
  }

  // ---------------------------------------------------------------- the phases, as to deadlines

  /** Which refreshes are marked as enabled. */
  predicate Marks(o: RefreshOptions, keyValues: bool, featureFlags: bool, secrets: bool) {
    o.keyValueRefreshEnabled == keyValues && o.featureFlagRefreshEnabled == featureFlags
    && o.secretReferenceRefreshEnabled == secrets
  }

  predicate SameMarks(a: RefreshOptions, b: RefreshOptions) {
    Marks(a, b.keyValueRefreshEnabled, b.featureFlagRefreshEnabled, b.secretReferenceRefreshEnabled)
  }

  /** A due phase that goes on sets its deadline. */
  lemma DueFeatureFlagDeadline(c: Codec, spec: Spec, store: Store, env: Env, data: Data, due: Time, run: Run)
    requires spec.configMapData.Some? && env.featureFlagsFetched < |store.featureFlags|
    ensures var step := DueFeatureFlagRefresh(c, spec, store, env, data, due, run);
            step.Go? ==> step.run.recon == run.recon.(nextFeatureFlag := due) && SameMarks(step.run.options,
                run.options)
  {
    hide RefreshFeatureFlags;
  }

  lemma FeatureFlagDeadline(c: Codec, provider: Provider, store: Store, env: Env, data: Data, run: Run)
    requires ValidSpec(provider.spec) && env.featureFlagsFetched < |store.featureFlags|
    requires Marks(run.options, false, false, false)
    ensures var spec, step := provider.spec, FeatureFlagRefresh(c, provider, store, env, data, run);
            step.Go? ==>
              && step.run.recon
                 == run.recon.(nextFeatureFlag :=
                                 NewDeadline(spec, run.recon.nextFeatureFlag, env, run.shouldReconcile, FeatureFlag))
              && Marks(step.run.options, false, IsEnabled(spec, FeatureFlag), false)
  {
    hide DueFeatureFlagRefresh;
    var spec := provider.spec;
    if FeatureFlagRefreshEnabled(spec) {
      var enabled := WithOptions(run, run.options.(featureFlagRefreshEnabled := true));
      DueFeatureFlagDeadline(c, spec, store, env, data, DeadlineAfter(env, spec.featureFlag.value),
                             Called(enabled, CheckFeatureFlagETags));
    }
  }

  lemma DueKeyValueDeadline(c: Codec, spec: Spec, store: Store, env: Env, data: Data, due: Time, run: Run)
    requires ValidSpec(spec) && env.keyValuesFetched < |store.keyValues|
    ensures var step := DueKeyValueRefresh(c, spec, store, env, data, due, run);
            step.Go? ==> step.run.recon == run.recon.(nextKeyValue := due) && SameMarks(step.run.options, run.options)
  {
    hide RefreshKeyValues, LoadedSettings, Loadable;
  }

  lemma KeyValueDeadline(c: Codec, provider: Provider, store: Store, env: Env, data: Data, run: Run)
    requires ValidSpec(provider.spec) && env.keyValuesFetched < |store.keyValues|
    requires Marks(run.options, false, IsEnabled(provider.spec, FeatureFlag), false)
    ensures var spec, step := provider.spec, KeyValueRefresh(c, provider, store, env, data, run);
            step.Go? ==>
              && step.run.recon
                 == run.recon.(nextKeyValue :=
                                 NewDeadline(spec, run.recon.nextKeyValue, env, run.shouldReconcile, KeyValue))
              && Marks(step.run.options, IsEnabled(spec, KeyValue), IsEnabled(spec, FeatureFlag), false)
  {
    hide DueKeyValueRefresh;
    var spec := provider.spec;
    if KeyValueRefreshEnabled(spec) {
      var enabled := WithOptions(run, run.options.(keyValueRefreshEnabled := true));
      DueKeyValueDeadline(c, spec, store, env, data, DeadlineAfter(env, spec.keyValueRefresh), enabled);
    }
  }

  lemma DueSecretStep(c: Codec, spec: Spec, env: Env, existing: map<string, Secret>, due: Time, run: Run)
    ensures var step := DueSecretRefresh(c, spec, env, existing, due, run);
            if step.Go?
            then step.run.recon == run.recon.(nextSecret := due)
            && step.run.options == run.options.(secretSettingPopulated := true)
            else step.run.recon == run.recon && step.run.options == run.options
  {
    hide RefreshedSecrets, WritesIntoNil, Resolved, ToResolve;
  }

  /** The options once a secret refresh is found to be enabled, and then due. */
  function MarkedOptions(o: RefreshOptions): RefreshOptions { o.(secretReferenceRefreshEnabled := true) }
  function NeededOptions(o: RefreshOptions): RefreshOptions { MarkedOptions(o).(secretReferenceRefreshNeeded := true) }

  lemma SecretRefreshCases(c: Codec, provider: Provider, env: Env, existing: map<string, Secret>, run: Run)
    ensures var spec := provider.spec;
            SecretReferenceRefresh(c, provider, env, existing, run)
            == if !SecretRefreshEnabled(spec) then Go(NextSecret(run, 0))
               else if !(env.now > run.recon.nextSecret) then Go(WithOptions(run, MarkedOptions(run.options)))
               else
                 var needed := WithOptions(run, NeededOptions(run.options));
                 var due := DeadlineAfter(env, spec.secret.value.refresh);
                 if run.options.secretSettingPopulated then Go(NextSecret(needed, due))
                 else DueSecretRefresh(c, spec, env, existing, due, Called(needed, ResolveSecretReferences))
  {
    hide DueSecretRefresh, WithOptions, NextSecret, Called;
  }

  lemma RunParts(run: Run, o: RefreshOptions, time: Time, call: Call)
    ensures WithOptions(run, o).options == o && WithOptions(run, o).recon == run.recon
    ensures NextSecret(run, time).options == run.options
            && NextSecret(run, time).recon == run.recon.(nextSecret := time)
    ensures Called(run, call).options == run.options && Called(run, call).recon == run.recon
  {
  }

  /** A secret refresh changes no other marks than its own, and sets only its own deadline. */
  lemma SecretRefreshStep(c: Codec, provider: Provider, env: Env, existing: map<string, Secret>, run: Run)
    ensures var spec, step := provider.spec, SecretReferenceRefresh(c, provider, env, existing, run);
            var o := step.run.options;
            && (!SecretRefreshEnabled(spec) ==> o == run.options)
            && (SecretRefreshEnabled(spec) && env.now <= run.recon.nextSecret ==> o == MarkedOptions(run.options))
            && (SecretRefreshEnabled(spec) && env.now > run.recon.nextSecret ==>
                  o == NeededOptions(run.options).(secretSettingPopulated := o.secretSettingPopulated))
            && (step.Go? ==> step.run.recon == run.recon.(nextSecret :=
                  if !SecretRefreshEnabled(spec) then 0
                  else if env.now > run.recon.nextSecret then DeadlineAfter(env, spec.secret.value.refresh)
                  else run.recon.nextSecret))
  {
    hide SecretReferenceRefresh, DueSecretRefresh, WithOptions, NextSecret, Called, MarkedOptions;
    var spec := provider.spec;
    SecretRefreshCases(c, provider, env, existing, run);
    if SecretRefreshEnabled(spec) {
      var due, needed := DeadlineAfter(env, spec.secret.value.refresh), WithOptions(run, NeededOptions(run.options));
      var called := Called(needed, ResolveSecretReferences);
      RunParts(run, MarkedOptions(run.options), due, ResolveSecretReferences);
      RunParts(run, NeededOptions(run.options), due, ResolveSecretReferences);
      RunParts(needed, NeededOptions(run.options), due, ResolveSecretReferences);
      DueSecretStep(c, spec, env, existing, due, called);
      assert NeededOptions(run.options).secretSettingPopulated
             == run.options.secretSettingPopulated by { SamePopulated(run.options); }
    } else {
      RunParts(run, run.options, 0, ResolveSecretReferences);
    }
  }

  lemma SamePopulated(o: RefreshOptions)
    ensures NeededOptions(o).secretSettingPopulated == o.secretSettingPopulated
  {
  }

  lemma SecretDeadline(c: Codec, provider: Provider, env: Env, existing: map<string, Secret>, run: Run)
    requires Marks(run.options, IsEnabled(provider.spec, KeyValue), IsEnabled(provider.spec, FeatureFlag), false)
    ensures var spec, step := provider.spec, SecretReferenceRefresh(c, provider, env, existing, run);
            step.Go? ==>
              && step.run.recon
                 == run.recon.(nextSecret :=
                                 NewDeadline(spec, run.recon.nextSecret, env, run.shouldReconcile, SecretReference))
              && AnyRefreshEnabled(step.run.options) == AnyEnabled(spec)
  {
    hide SecretReferenceRefresh;
    SecretRefreshStep(c, provider, env, existing, run);
  }

  lemma FirstPhaseKeepsRecon(c: Codec, provider: Provider, store: Store, env: Env, run: Run)
    requires env.keyValuesFetched < |store.keyValues| && env.featureFlagsFetched < |store.featureFlags|
    requires run.options == NEW_OPTIONS
    ensures var step := FullReconciliation(c, provider, store, env, run);
            && step.run.recon == run.recon && Marks(step.run.options, false, false, false)
            && step.run.shouldReconcile == run.shouldReconcile
  {
    hide LoadedSettings, Typed, Loadable;
  }

  /** Populating sets exactly the deadlines of what it examines, clears those that are disabled,
      and leaves the rest. */
  lemma PopulateSetsDeadlines(c: Codec, provider: Provider, store: Store, env: Env, configMap: Option<ConfigMap>,
                              existing: map<string, Secret>, run: Run)
    requires ValidSpec(provider.spec) && run.options == NEW_OPTIONS
    requires env.keyValuesFetched < |store.keyValues| && env.featureFlagsFetched < |store.featureFlags|
    ensures var spec, step := provider.spec, PopulateSettings(c, provider, store, env, configMap, existing, run);
            step.Go? ==>
              && step.run.recon == WithDeadlines(spec, run.recon, env,
                                                 ShouldReconcile(provider, run.recon, configMap, existing))
              && AnyRefreshEnabled(step.run.options) == AnyEnabled(spec)
  {
    hide FullReconciliation, FeatureFlagRefresh, KeyValueRefresh, SecretReferenceRefresh, ShouldReconcile,
         NewDeadline;
    var full := ShouldReconcile(provider, run.recon, configMap, existing);
    var data := if configMap.Some? then configMap.value.data else map[];
    FirstPhaseKeepsRecon(c, provider, store, env, run.(shouldReconcile := true));
    var first := if full then FullReconciliation(c, provider, store, env, run.(shouldReconcile := true))
                 else Go(run.(shouldReconcile := false));
    if first.Go? {
      FeatureFlagDeadline(c, provider, store, env, data, first.run);
      FeatureFlagsAdvance(c, provider, store, env, data, first.run);
      var second := FeatureFlagRefresh(c, provider, store, env, data, first.run);
      if second.Go? {
        KeyValueDeadline(c, provider, store, env, data, second.run);
        KeyValuesAdvance(c, provider, store, env, data, second.run);
        var third := KeyValueRefresh(c, provider, store, env, data, second.run);
        if third.Go? {
          SecretDeadline(c, provider, env, existing, third.run);
        }
      }
    }
  }

  // ---------------------------------------------------------------- stopping halfway

  datatype Phase = FullLoad | FlagPhase | KeyValuePhase | SecretPhase

  /** The phase that stops a populating run, if any. */
  function StoppedIn(c: Codec, provider: Provider, store: Store, env: Env, configMap: Option<ConfigMap>,
                     existing: map<string, Secret>, run: Run): Option<Phase>
    requires ValidSpec(provider.spec)
    requires env.keyValuesFetched < |store.keyValues| && env.featureFlagsFetched < |store.featureFlags|
  {
    var data := if configMap.Some? then configMap.value.data else map[];
    var full := ShouldReconcile(provider, run.recon, configMap, existing);
    var first := if full then FullReconciliation(c, provider, store, env, run.(shouldReconcile := true))
                 else Go(run.(shouldReconcile := false));
    if !first.Go? then Some(FullLoad)
    else
      var second := FeatureFlagRefresh(c, provider, store, env, data, first.run);
      if !second.Go? then Some(FlagPhase)
      else
        var third := KeyValueRefresh(c, provider, store, env, data, second.run);
        if !third.Go? then Some(KeyValuePhase)
        else if SecretReferenceRefresh(c, provider, env, existing, third.run).Go? then None else Some(SecretPhase)
  }

  /** The state with the deadlines of only the phases before the given one. */
  function DeadlinesBefore(spec: Spec, recon: Recon, env: Env, full: bool, phase: Phase): Recon {
    var all := WithDeadlines(spec, recon, env, full);
    match phase
    case FullLoad => recon
    case FlagPhase => recon
    case KeyValuePhase => recon.(nextFeatureFlag := all.nextFeatureFlag)
    case SecretPhase => recon.(nextFeatureFlag := all.nextFeatureFlag, nextKeyValue := all.nextKeyValue)
  }

  lemma StoppedPhasesKeepRecon(c: Codec, provider: Provider, store: Store, env: Env, data: Data,
                               existing: map<string, Secret>, run: Run)
    requires ValidSpec(provider.spec)
    requires env.keyValuesFetched < |store.keyValues| && env.featureFlagsFetched < |store.featureFlags|
    ensures var step :=
      FeatureFlagRefresh(c, provider, store, env, data, run); !step.Go? ==> step.run.recon == run.recon
    ensures var step := KeyValueRefresh(c, provider, store, env, data, run); !step.Go? ==> step.run.recon == run.recon
    ensures var step :=
      SecretReferenceRefresh(c, provider, env, existing, run); !step.Go? ==> step.run.recon == run.recon
  {
    hide RefreshFeatureFlags, RefreshKeyValues, LoadedSettings, Loadable, RefreshedSecrets, WritesIntoNil,
         CheckedOptions,
         ReloadedOptions;
  }

  /** A populating run that stops has moved exactly the deadlines of the phases before the one
      that stopped it: those that were due, or part of a full load, are put off by their
      interval although nothing will be written. */
  lemma StoppedSetsDeadlines(c: Codec, provider: Provider, store: Store, env: Env, configMap: Option<ConfigMap>,
                             existing: map<string, Secret>, run: Run)
    requires ValidSpec(provider.spec) && run.options == NEW_OPTIONS
    requires env.keyValuesFetched < |store.keyValues| && env.featureFlagsFetched < |store.featureFlags|
    ensures var spec, step := provider.spec, PopulateSettings(c, provider, store, env, configMap, existing, run);
            var stopped := StoppedIn(c, provider, store, env, configMap, existing, run);
            var full := ShouldReconcile(provider, run.recon, configMap, existing);
            && (step.Go? <==> stopped.None?)
            && (stopped.Some? ==> step.run.recon == DeadlinesBefore(spec, run.recon, env, full, stopped.value))
  {
    hide FullReconciliation, FeatureFlagRefresh, KeyValueRefresh, SecretReferenceRefresh, ShouldReconcile, NewDeadline;
    var full := ShouldReconcile(provider, run.recon, configMap, existing);
    var data := if configMap.Some? then configMap.value.data else map[];
    FirstPhaseKeepsRecon(c, provider, store, env, run.(shouldReconcile := true));
    var first := if full then FullReconciliation(c, provider, store, env, run.(shouldReconcile := true))
                 else Go(run.(shouldReconcile := false));
    if first.Go? {
      FeatureFlagDeadline(c, provider, store, env, data, first.run);
      FeatureFlagsAdvance(c, provider, store, env, data, first.run);
      StoppedPhasesKeepRecon(c, provider, store, env, data, existing, first.run);
      var second := FeatureFlagRefresh(c, provider, store, env, data, first.run);
      if second.Go? {
        KeyValueDeadline(c, provider, store, env, data, second.run);
        KeyValuesAdvance(c, provider, store, env, data, second.run);
        StoppedPhasesKeepRecon(c, provider, store, env, data, existing, second.run);
        var third := KeyValueRefresh(c, provider, store, env, data, second.run);
        if third.Go? {
          StoppedPhasesKeepRecon(c, provider, store, env, data, existing, third.run);
        }
      }
    }
  }

  // ---------------------------------------------------------------- nothing to examine

  predicate NothingExamined(spec: Spec, recon: Recon, env: Env) {
    forall kind :: !IsExamined(spec, DeadlineOf(recon, kind), env, false, kind)
  }

  /** Nothing has been called or populated. */
  predicate Idle(run: Run) {
    && run.trace == [] && run.settings == Settings(None, map[], Own(map[])) && !run.shouldReconcile
    && !run.options.configMapSettingPopulated && !run.options.secretSettingPopulated && !run.options.sentinelChanged
    && run.options.updatedKeyValueETags.None? && run.options.updatedFeatureFlagETags.None?
  }

  lemma IdlePhases(c: Codec, provider: Provider, store: Store, env: Env, data: Data, existing: map<string, Secret>,
                   run: Run)
    requires ValidSpec(provider.spec) && Idle(run)
    requires env.keyValuesFetched < |store.keyValues| && env.featureFlagsFetched < |store.featureFlags|
    ensures !IsExamined(provider.spec, run.recon.nextFeatureFlag, env, false, FeatureFlag) ==>
              var step := FeatureFlagRefresh(c, provider, store, env, data, run);
              step.Go? && Idle(step.run) && step.run.cluster == run.cluster
    ensures !IsExamined(provider.spec, run.recon.nextKeyValue, env, false, KeyValue) ==>
              var step := KeyValueRefresh(c, provider, store, env, data, run);
              step.Go? && Idle(step.run) && step.run.cluster == run.cluster
    ensures !IsExamined(provider.spec, run.recon.nextSecret, env, false, SecretReference) ==>
              var step := SecretReferenceRefresh(c, provider, env, existing, run);
              step.Go? && Idle(step.run) && step.run.cluster == run.cluster
  {
    hide DueFeatureFlagRefresh, DueKeyValueRefresh, DueSecretRefresh;
  }

  /** If no full load and no refresh is due, populating calls nothing and populates nothing. */
  lemma PopulateIdles(c: Codec, provider: Provider, store: Store, env: Env, configMap: Option<ConfigMap>,
                      existing: map<string, Secret>, recon: Recon, cluster: Cluster)
    requires ValidSpec(provider.spec)
    requires env.keyValuesFetched < |store.keyValues| && env.featureFlagsFetched < |store.featureFlags|
    requires !ShouldReconcile(provider, recon, configMap, existing) && NothingExamined(provider.spec, recon, env)
    ensures var step := PopulateSettings(c, provider, store, env, configMap, existing, StartRun(recon, cluster));
            step.Go? && Idle(step.run) && step.run.cluster == cluster
  {
    hide FeatureFlagRefresh, KeyValueRefresh, SecretReferenceRefresh, ShouldReconcile, IsExamined, Idle;
    var data := if configMap.Some? then configMap.value.data else map[];
    var first := StartRun(recon, cluster);
    assert first.(shouldReconcile := false) == first;
    assert Idle(first) by { StartIsIdle(recon, cluster); }
    IdlePhases(c, provider, store, env, data, existing, first);
    assert !IsExamined(provider.spec, DeadlineOf(recon, FeatureFlag), env, false, FeatureFlag);
    FeatureFlagDeadline(c, provider, store, env, data, first);
    var second := FeatureFlagRefresh(c, provider, store, env, data, first).run;
    IdlePhases(c, provider, store, env, data, existing, second);
    assert !IsExamined(provider.spec, DeadlineOf(recon, KeyValue), env, false, KeyValue);
    KeyValueDeadline(c, provider, store, env, data, second);
    var third := KeyValueRefresh(c, provider, store, env, data, second).run;
    assert !IsExamined(provider.spec, DeadlineOf(recon, SecretReference), env, false, SecretReference);
    IdlePhases(c, provider, store, env, data, existing, third);
  }

  lemma StartIsIdle(recon: Recon, cluster: Cluster)
    ensures Idle(StartRun(recon, cluster))
  {
  }
}
