/** What a reconcile that fails leaves of its deadlines. */
module Failures {
  import opened Wrappers
  import opened TypedSetting
  import opened ReconcileTypes
  import opened Processor
  import opened Reconciler
  import opened NoLostUpdate
  import opened SecretGuarantees
  import opened Deadlines
  import opened Convergence
  import opened Stopping
  import opened TreeNames

  function PhaseOf(ending: Ending): Option<Phase> {
    match ending
    case Through => None
    case Fails(phase) => Some(phase)
    case Panics(phase) => Some(phase)
  }

  /** How a prepared reconcile of s ends to populate. */
  function EndingOf(s: State, env: Env, recon: Recon, full: bool): Ending
    requires env.keyValuesFetched < |s.store.keyValues|
  {
    PopulatingEnding(s.provider.spec, s.store, recon, env, Live(s.cluster, NamesToCollect(s.provider.spec, recon)),
                     full)
  }

  /** The state whose deadlines a prepared reconcile leaves: those of all phases, or only of the
      phases before the one that stopped it. */
  function DeadlinesReached(spec: Spec, recon: Recon, env: Env, full: bool, stopped: Option<Phase>): Recon {
    if stopped.Some? then DeadlinesBefore(spec, recon, env, full, stopped.value)
      else WithDeadlines(spec, recon, env, full)
  }

  lemma StoppedReachesDeadlines(c: Codec, s: State, env: Env, start: Store, recon: Recon)
    requires Prepared(c, false, s, env, start, recon)
    ensures var spec, step := s.provider.spec, PopulateAndWrite(c, s, env, recon);
            var full := LoadsInFull(s, recon);
            var stopped := PhaseOf(EndingOf(s, env, recon, full));
            && (step.Go? ==> stopped.None?)
            && step.run.recon.(configMapVersion := None)
               == DeadlinesReached(spec, recon, env, full, stopped).(configMapVersion := None)
  {
    hide PopulateSettings, PopulateAndWrite, StoppedIn, ShouldReconcile, DeadlinesBefore, WithDeadlines, Invariant,
         PopulatingEnding;
    WritingKeepsDeadlines(c, s, env, recon);
    var configMap := OptionalConfigMap(s.cluster, s.provider.spec.configMapName);
    var existing := Live(s.cluster, NamesToCollect(s.provider.spec, recon));
    PopulatingEndsExactly(c, s, env, start, recon);
    PopulateSetsDeadlines(c, s.provider, s.store, env, configMap, existing, StartRun(recon, s.cluster));
    StoppedSetsDeadlines(c, s.provider, s.store, env, configMap, existing, StartRun(recon, s.cluster));
  }

  lemma WritingKeepsDeadlines(c: Codec, s: State, env: Env, recon: Recon)
    requires ValidSpec(s.provider.spec)
    requires env.keyValuesFetched < |s.store.keyValues| && env.featureFlagsFetched < |s.store.featureFlags|
    ensures var populated, written := Populating(c, s, env, recon), PopulateAndWrite(c, s, env, recon);
            && written.run.recon.(configMapVersion := None) == populated.run.recon.(configMapVersion := None)
            && (written.Go? ==> populated.Go?)
  {
    hide PopulateSettings, ShouldCreateOrUpdateConfigMap;
  }

  lemma SameDeadlines(a: Recon, b: Recon, kind: Kind)
    requires a.(configMapVersion := None, secrets := map[]) == b.(configMapVersion := None, secrets := map[])
    ensures DeadlineOf(a, kind) == DeadlineOf(b, kind)
  {
    var a', b' := a.(configMapVersion := None, secrets := map[]), b.(configMapVersion := None, secrets := map[]);
    assert a.nextKeyValue == a'.nextKeyValue && b.nextKeyValue == b'.nextKeyValue;
    assert a.nextSecret == a'.nextSecret && b.nextSecret == b'.nextSecret;
    assert a.nextFeatureFlag == a'.nextFeatureFlag && b.nextFeatureFlag == b'.nextFeatureFlag;
  }

  /** A reconcile that fails leaves the deadlines alone when it fails before populating; else it
      has moved exactly those of the phases that were through, whatever was written. */
  lemma FailedSetsDeadlines(c: Codec, s: State, env: Env, store: Store, kind: Kind)
    requires Inverse(c) && Invariant(c, false, s) && ValidEnv(env, s.store, store)
    ensures var r := Reconcile(c, s.(store := store), env);
            r.outcome.Failed? || r.outcome.Panicked? ==>
              var (ready, recon) := Prepare(s.provider, s.cluster, s.recon, env);
              if !ready then r.state.recon == recon
              else
                && r.state.recon.Some? && recon.Some? && ValidSpec(s.provider.spec)
                && var stopped := PhaseOf(EndingOf(s.(store := store), env, recon.value, !InStep(s)));
                   DeadlineOf(r.state.recon.value, kind)
                   == DeadlineOf(DeadlinesReached(s.provider.spec, recon.value, env, !InStep(s), stopped), kind)
  {
    hide PopulateAndWrite, SyncSecrets, Prepare, Invariant, Prepared, InStep, PopulatingEnding, DeadlinesReached,
         ShouldReconcile,
         KeepsCore, DeadlineOf;
    var (ready, recon) := Prepare(s.provider, s.cluster, s.recon, env);
    if ValidSpec(s.provider.spec) && ready {
      MiddleFacts(c, s, env, store, recon);
      PreparedDrift(c, s, env, recon);
      var prepared := s.(store := store, recon := recon);
      StoppedReachesDeadlines(c, prepared, env, s.store, recon.value);
      var written := PopulateAndWrite(c, s.(store := store), env, recon.value);
      var reached := DeadlinesReached(s.provider.spec, recon.value, env, !InStep(s),
                                      PhaseOf(EndingOf(prepared, env, recon.value, !InStep(s))));
      SameDeadlines(written.run.recon, reached, kind);
      if written.Go? {
        var existing := Live(s.cluster, NamesToCollect(s.provider.spec, recon.value));
        var synced := SyncSecrets(c, s.provider, env, existing, written.run);
        SyncSecretsKeepsCore(c, s.provider, env, existing, written.run);
        KeepsCoreDeadlines(written.run, synced.run, kind);
      }
    }
  }

  lemma KeepsCoreDeadlines(before: Run, after: Run, kind: Kind)
    requires KeepsCore(before, after)
    ensures DeadlineOf(after.recon, kind) == DeadlineOf(before.recon, kind)
  {
    SameDeadlines(after.recon, before.recon, kind);
  }

  /** New flags have been fetched, and then the key-values cannot be checked. */
  ghost predicate FlagsThenFailure(s: State, env: Env)
    requires s.recon.Some?
  {
    && FeatureFlagsDue(s.provider.spec, s.recon.value, env)
    && PagesChanged(s.recon.value.featureFlagETags, env.featureFlagsChecked)
    && env.fault(CheckFeatureFlagETags) == Fine && env.fault(RefreshFeatureFlagSettings) == Fine
    && KeyValuesDue(s.provider.spec, s.recon.value, env) && !s.provider.spec.monitoring
    && env.fault(CheckKeyValueETags) != Fine
  }

  lemma FlagsThenFailureEnds(s: State, env: Env, existing: map<string, Secret>)
    requires s.recon.Some? && FlagsThenFailure(s, env) && env.keyValuesFetched < |s.store.keyValues|
    ensures PopulatingEnding(s.provider.spec, s.store, s.recon.value, env, existing, false) == Fails(KeyValuePhase)
  {
  }

  /** A failure can put off what had already been examined: flags are fetched, the check of the
      key-values fails, nothing is written and the ETags stay, yet the next examination of the
      flags is an interval away. */
  lemma FailureDelaysFetchedFlags(c: Codec, s: State, env: Env, store: Store)
    requires Inverse(c) && Invariant(c, false, s) && ValidEnv(env, s.store, store) && ValidSpec(s.provider.spec)
    requires AtRest(s) && ReadsWork(s, env) && FlagsThenFailure(s, env)
    ensures var r := Reconcile(c, s.(store := store), env);
            && r.outcome.Failed? && r.state.cluster == s.cluster && r.state.recon.Some?
            && r.state.recon.value.featureFlagETags == s.recon.value.featureFlagETags
            && DeadlineOf(r.state.recon.value, FeatureFlag) == env.now + IntervalOf(s.provider.spec, FeatureFlag)
  {
    hide PopulateSettings, Prepare, Invariant, InStep, OwnsItsObjects, ShouldReconcile, Prepared, StoppedIn,
         FlagsThenFailure, SyncSecrets,
         PopulatingEnding;
    PrepareAtRest(s, env);
    PreparedDrift(c, s, env, s.recon);
    MiddleFacts(c, s, env, store, s.recon);
    var recon, prepared := s.recon.value, s.(store := store);
    assert prepared == s.(store := store, recon := s.recon);
    var existing := Live(s.cluster, NamesToCollect(s.provider.spec, recon));
    SameFlagsThenFailure(s, store, env);
    FlagsThenFailureEnds(prepared, env, existing);
    PopulatingEndsExactly(c, prepared, env, s.store, recon);
    var v, w := PopulateFacts(c, false, prepared, env, s.store, recon, existing);
    StoppedSetsDeadlines(c, s.provider, store, env, OptionalConfigMap(s.cluster, s.provider.spec.configMapName),
                         existing,
                         StartRun(recon, s.cluster));
  }

  lemma SameFlagsThenFailure(s: State, store: Store, env: Env)
    requires s.recon.Some? && FlagsThenFailure(s, env)
    ensures FlagsThenFailure(s.(store := store), env)
    ensures IsExamined(s.provider.spec, s.recon.value.nextFeatureFlag, env, false, FeatureFlag)
    ensures IsEnabled(s.provider.spec, FeatureFlag)
  {
  }

  /** A reconcile panics exactly when it gets to populate and a phase then panics: a load of
      key-values without a document, or a refresh that writes into nil. */
  lemma PanicsExactly(c: Codec, s: State, env: Env, store: Store)
    requires Inverse(c) && Invariant(c, false, s) && ValidEnv(env, s.store, store)
    ensures var (ready, recon) := Prepare(s.provider, s.cluster, s.recon, env);
            Reconcile(c, s.(store := store), env).outcome.Panicked? <==>
              && !s.running && ValidSpec(s.provider.spec) && ready && recon.Some?
              && EndingOf(s.(store := store), env, recon.value, !InStep(s)).Panics?
  {
    hide PopulateSettings, SyncSecrets, Prepare, Invariant, Prepared, InStep, PopulatingEnding, ShouldReconcile,
         KeepsCore;
    var (ready, recon) := Prepare(s.provider, s.cluster, s.recon, env);
    if ValidSpec(s.provider.spec) && ready {
      MiddleFacts(c, s, env, store, recon);
      PreparedDrift(c, s, env, recon);
      PopulatingEndsExactly(c, s.(store := store, recon := recon), env, s.store, recon.value);
      WritingDoesNotPanic(c, s.(store := store), env, recon.value);
    }
  }

  /** The content is made from settings: whether it is buildable is decided by their keys. */
  ghost predicate MadeFrom(c: Codec, options: Option<DataOptions>, settings: map<string, Option<string>>,
                           isJson: map<string, bool>, content: Content)
  {
    content.buildable <==>
      (IsDocument(options) && options.value.separator.Some? ==>
         KeysBuild(c, settings, isJson, options.value.separator.value))
  }

  /** In terms of the keys: a full load panics exactly when it gets its settings, and these go to
      a document with split keys that go on, somewhere, with names that make an array and of
      which two read as the same number. */
  lemma LoadPanicsByKeys(c: Codec, s: State, env: Env, store: Store, settings: map<string, Option<string>>,
                         isJson: map<string, bool>)
    requires Inverse(c) && Invariant(c, false, s) && ValidEnv(env, s.store, store) && !InStep(s)
    requires MadeFrom(c, s.provider.spec.configMapData, settings, isJson, store.keyValues[env.keyValuesFetched])
    ensures var spec, content := s.provider.spec, store.keyValues[env.keyValuesFetched];
            Reconcile(c, s.(store := store), env).outcome.Panicked? <==>
              && !s.running && ValidSpec(spec) && Prepare(s.provider, s.cluster, s.recon, env).0
              && env.fault(CreateTargetSettings) == Fine && Loadable(spec, content)
              && IsDocument(spec.configMapData) && spec.configMapData.value.separator.Some?
              && exists path, names ::
                   && path != [] && KeyNamesBelow(c, settings, isJson, spec.configMapData.value.separator.value, path,
                                                  names)
                   && !NoCollision(names)
  {
    hide Reconcile, Prepare, Invariant, InStep, Loadable, KeyNamesBelow, NoCollision;
    PanicsExactly(c, s, env, store);
    ReadyIsKnown(c, s, env);
  }

  lemma ReadyIsKnown(c: Codec, s: State, env: Env)
    requires Invariant(c, false, s)
    ensures Prepare(s.provider, s.cluster, s.recon, env).0 ==> Prepare(s.provider, s.cluster, s.recon, env).1.Some?
  {
    PrepareKeepsInvariant(c, false, s, env);
  }

  lemma WritingDoesNotPanic(c: Codec, s: State, env: Env, recon: Recon)
    requires ValidSpec(s.provider.spec)
    requires env.keyValuesFetched < |s.store.keyValues| && env.featureFlagsFetched < |s.store.featureFlags|
    ensures var populated, written := Populating(c, s, env, recon), PopulateAndWrite(c, s, env, recon);
            && (!populated.Go? ==> written == populated)
            && (populated.Go? ==> !written.Crash? && written.run.panicked == populated.run.panicked)
  {
    hide PopulateSettings, ShouldCreateOrUpdateConfigMap;
  }

  /** After a panic whose status patch is not lost, no reconcile does anything ever again, not
      even after a restart or for a new spec: it takes the phase that was left behind for a
      reconcile that is running. */
  lemma {:induction false} NothingAfterAPanic(c: Codec, s: State, events: seq<Event>, s': State)
    requires s.running && Leads(c, s, events, s')
    ensures s'.running
    ensures (forall e :: e in events ==> e.Reconciles?) ==> s' == s.(store := s'.store)
    decreases events
  {
    hide Reconcile;
    if events != [] {
      var earlier, last := events[..|events| - 1], events[|events| - 1];
      var previous :| Leads(c, s, earlier, previous) && Allowed(previous, last) && s' == Next(c, previous, last);
      assert forall e :: e in earlier ==> e in events;
      NothingAfterAPanic(c, s, earlier, previous);
      if last.Reconciles? {
        RunningIsSkipped(c, previous.(store := last.store), last.env);
        assert last in events;
      }
    }
  }

  /** The events lead from s to s'. */
  ghost predicate Leads(c: Codec, s: State, events: seq<Event>, s': State)
    decreases events
  {
    if events == [] then s' == s
    else
      var (earlier, last) := (events[..|events| - 1], events[|events| - 1]);
      exists previous :: Leads(c, s, earlier, previous) && Allowed(previous, last) && s' == Next(c, previous, last)
  }

  lemma RunningIsSkipped(c: Codec, s: State, env: Env)
    requires env.keyValuesFetched < |s.store.keyValues| && env.featureFlagsFetched < |s.store.featureFlags|
             && ListsKeys(env)
    ensures s.running ==> Reconcile(c, s, env) == Reconciled(s, Skipped, [])
  {
  }

  /** Only a panic leaves the phase behind, and the panic leaves it unless the patch is lost. */
  lemma LeftRunningExactly(c: Codec, s: State, env: Env, store: Store)
    requires Inverse(c) && Invariant(c, false, s) && ValidEnv(env, s.store, store) && !s.running
    ensures var r := Reconcile(c, s.(store := store), env);
            r.state.running <==> r.outcome.Panicked? && env.fault(PatchStatus) != Lost
  {
    hide PopulateAndWrite, SyncSecrets, Prepare, Invariant;
    MetadataIsNeverMissing(c, s, env, store);
  }
}
