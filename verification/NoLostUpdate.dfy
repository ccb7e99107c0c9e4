/** No store change is lost: in every reachable state the recorded ETags are never newer than
    the content of the ConfigMap they are recorded for. */
module NoLostUpdate {
  import opened Clock
  import opened Wrappers
  import opened TypedSetting
  import opened ReconcileTypes
  import opened Processor
  import opened Reconciler
  import SettingLoader

  // ---------------------------------------------------------------- what is kept

  /** The recorded generation and ConfigMap version are those of the cluster. */
  ghost predicate Matches(s: State) {
    && s.recon.Some? && s.recon.value.generation == s.provider.generation
    && s.provider.spec.configMapName in s.cluster.configMaps
    && s.recon.value.configMapVersion == Some(s.cluster.configMaps[s.provider.spec.configMapName].version)
  }

  /** The data a full load of versions v and w of the store makes. */
  ghost function FullData(c: Codec, spec: Spec, store: Store, v: nat, w: nat): Data
    requires v < |store.keyValues| && w < |store.featureFlags|
  {
    Typed(c, store.keyValues[v].settings, Flags(spec, store, w), spec.configMapData)
  }

  /** The ConfigMap stands for a full load of versions v and w. */
  ghost predicate StandsFor(c: Codec, spec: Spec, cluster: Cluster, store: Store, v: nat, w: nat) {
    && v < |store.keyValues| && w < |store.featureFlags|
    && spec.configMapName in cluster.configMaps
    && Reflects(c, cluster.configMaps[spec.configMapName].data, FullData(c, spec, store, v, w), spec.configMapData)
  }

  /** In other words, a reader finds in it the key-values of version v and the flags of version w. */
  lemma StandsForExactly(c: Codec, spec: Spec, cluster: Cluster, store: Store, v: nat, w: nat)
    requires Inverse(c) && v < |store.keyValues| && w < |store.featureFlags|
    ensures StandsFor(c, spec, cluster, store, v, w) <==>
              && spec.configMapName in cluster.configMaps
              && Shows(c, store.keyValues[v].settings,
                       if spec.featureFlag.Some? then Some(store.featureFlags[w]) else None, spec.configMapData,
                       cluster.configMaps[spec.configMapName].data)
  {
    if spec.configMapName in cluster.configMaps {
      ReflectsExactly(c, store.keyValues[v].settings, Flags(spec, store, w), spec.configMapData,
                      cluster.configMaps[spec.configMapName].data);
    }
  }

  /** ETags read at versions at most v and w. */
  ghost predicate AtMost(keyValueETags: Option<nat>, featureFlagETags: Option<nat>, spec: Spec, v: int, w: int) {
    && keyValueETags.Some? && keyValueETags.value <= v
    && (spec.featureFlag.Some? ==> featureFlagETags.Some? && featureFlagETags.value <= w)
  }

  ghost predicate ETagsAtMost(recon: Recon, spec: Spec, v: int, w: int) {
    AtMost(recon.keyValueETags, recon.featureFlagETags, spec, v, w)
  }

  /** Sentinels read no later than at version v, when they are monitored at all. */
  ghost predicate SentinelAtMost(sentinelETags: Option<nat>, spec: Spec, store: Store, v: nat) {
    KeyValueRefreshEnabled(spec) && spec.monitoring && sentinelETags.Some? ==>
      sentinelETags.value <= SentinelAt(store, v)
  }

  /** Sentinels that have been read somewhere in the store's history. */
  ghost predicate SentinelKnown(sentinelETags: Option<nat>, store: Store) {
    sentinelETags.Some? ==> store.keyValues != [] && sentinelETags.value <= SentinelAt(store, |store.keyValues| - 1)
  }

  /** In a full load, the sentinels have not changed between the fetch of the key-values and
      the reading of the sentinels. */
  predicate SentinelsStill(env: Env, store: Store) {
    SentinelAt(store, env.sentinelRead) == SentinelAt(store, env.keyValuesFetched)
  }

  /** The recorded ETags are at most the versions that the ConfigMap stands for, and so are the
      recorded sentinels, if these have been still in every full load. */
  ghost predicate NothingLost(c: Codec, still: bool, s: State)
    requires s.recon.Some?
  {
    exists v: nat, w: nat ::
      && StandsFor(c, s.provider.spec, s.cluster, s.store, v, w)
      && AllAtMost(still, s.recon.value, s.provider.spec, s.store, v, w)
  }

  ghost predicate AllAtMost(still: bool, recon: Recon, spec: Spec, store: Store, v: nat, w: nat) {
    ETagsAtMost(recon, spec, v, w) && (still ==> SentinelAtMost(recon.sentinelETags, spec, store, v))
  }

  /** The target is tracked, and is no certificate. */
  ghost predicate TracksTarget(spec: Spec, secrets: map<string, Tracked>) {
    spec.secret.Some? ==>
      spec.secret.value.target in secrets && secrets[spec.secret.value.target].kind == SettingLoader.Opaque
  }

  /** The same Secrets with the same references, whatever their versions. */
  ghost predicate SameReferences(a: map<string, Tracked>, b: map<string, Tracked>) {
    a.Keys == b.Keys && forall n :: n in a ==> a[n].kind == b[n].kind && a[n].references == b[n].references
  }

  /** The Secrets are those that version u of the store selects. */
  ghost predicate SelectedAt(spec: Spec, store: Store, secrets: map<string, Tracked>, u: nat) {
    && u < |store.keyValues| && spec.secret.Some?
    && TracksReferences(spec.secret.value.target, store.keyValues[u].references, secrets)
  }

  /** What has been recorded for Secrets: the ETags, the sentinels and the Secrets themselves. */
  datatype Seen = Seen(keyValueETags: Option<nat>, sentinelETags: Option<nat>, secrets: map<string, Tracked>)

  function SeenBy(recon: Recon): Seen { Seen(recon.keyValueETags, recon.sentinelETags, recon.secrets) }

  /** Version u of the store selects the Secrets, and is no older than the page ETags, nor, if
      sentinels have been still, than the sentinels. */
  ghost predicate SeenAt(still: bool, spec: Spec, store: Store, seen: Seen, u: nat) {
    && seen.keyValueETags.Some? && seen.keyValueETags.value <= u && SelectedAt(spec, store, seen.secrets, u)
    && (still ==> SentinelAtMost(seen.sentinelETags, spec, store, u))
  }

  /** The tracked Secrets are those that some version selects that is no older than what has
      been recorded of the store. */
  ghost predicate TracksSelected(still: bool, spec: Spec, store: Store, seen: Seen) {
    TracksTarget(spec, seen.secrets) && (spec.secret.Some? ==> exists u: nat :: SeenAt(still, spec, store, seen, u))
  }

  lemma SelectedGrows(still: bool, spec: Spec, store: Store, store': Store, seen: Seen)
    requires TracksSelected(still, spec, store, seen) && store.keyValues <= store'.keyValues
    ensures TracksSelected(still, spec, store', seen)
  {
    hide SelectedMetadata;
    if spec.secret.Some? {
      var u: nat :| SeenAt(still, spec, store, seen, u);
      assert SeenAt(still, spec, store', seen, u);
    }
  }

  lemma SameAreSelected(still: bool, spec: Spec, store: Store, a: Seen, b: Seen)
    requires TracksSelected(still, spec, store, a) && b == a.(secrets := b.secrets)
    requires spec.secret.Some? ==> SameReferences(b.secrets, a.secrets)
    ensures TracksSelected(still, spec, store, b)
  {
    hide SelectedMetadata, SentinelAtMost;
    if spec.secret.Some? {
      var u: nat :| SeenAt(still, spec, store, a, u);
      assert b.keyValueETags == a.keyValueETags && b.sentinelETags == a.sentinelETags;
      assert SeenAt(still, spec, store, b, u);
    }
  }

  lemma FetchedAreSelected(still: bool, spec: Spec, store: Store, keyValueETags: Option<nat>,
                           sentinelETags: Option<nat>, u: nat)
    requires u < |store.keyValues| && keyValueETags.Some? && keyValueETags.value <= u
    requires still ==> SentinelAtMost(sentinelETags, spec, store, u)
    ensures var secrets := SelectedMetadata(spec, store.keyValues[u].references);
            TracksSelected(still, spec, store, Seen(keyValueETags, sentinelETags, secrets))
  {
    if spec.secret.Some? {
      var secrets := SelectedMetadata(spec, store.keyValues[u].references);
      SelectedAreTracked(spec, store.keyValues[u].references);
      assert SeenAt(still, spec, store, Seen(keyValueETags, sentinelETags, secrets), u);
    }
  }

  lemma SelectedForgets(still: bool, spec: Spec, store: Store, seen: Seen)
    requires TracksSelected(still, spec, store, seen)
    ensures TracksSelected(false, spec, store, seen)
  {
    hide SelectedMetadata;
    if spec.secret.Some? {
      var u: nat :| SeenAt(still, spec, store, seen, u);
      assert SeenAt(false, spec, store, seen, u);
    }
  }

  ghost predicate ReconInvariant(c: Codec, still: bool, s: State)
    requires s.recon.Some?
  {
    var recon, spec := s.recon.value, s.provider.spec;
    && recon.generation <= s.provider.generation
    && (recon.configMapVersion.Some? ==> recon.configMapVersion.value < s.cluster.nextVersion)
    && SentinelKnown(recon.sentinelETags, s.store)
    && (recon.generation == s.provider.generation ==>
          && ETagsAtMost(recon, spec, |s.store.keyValues| - 1, |s.store.featureFlags| - 1)
          && TracksSelected(still, spec, s.store, SeenBy(recon)))
    && (Matches(s) ==> NothingLost(c, still, s))
  }

  ghost predicate Invariant(c: Codec, still: bool, s: State) {
    && s.provider.generation > 0
    && s.store.keyValues != [] && s.store.featureFlags != []
    && SentinelsAdvance(s.store.keyValues) && VersionsBounded(s.cluster)
    && (s.recon.Some? ==> ReconInvariant(c, still, s))
  }

  lemma ForgetSentinels(c: Codec, still: bool, s: State)
    requires Invariant(c, still, s)
    ensures Invariant(c, false, s)
  {
    hide TracksSelected;
    if s.recon.Some? && s.recon.value.generation == s.provider.generation {
      SelectedForgets(still, s.provider.spec, s.store, SeenBy(s.recon.value));
    }
    if s.recon.Some? && Matches(s) {
      var v: nat, w: nat :| StandsFor(c, s.provider.spec, s.cluster, s.store, v, w)
                         && AllAtMost(still, s.recon.value, s.provider.spec, s.store, v, w);
      assert AllAtMost(false, s.recon.value, s.provider.spec, s.store, v, w);
    }
  }

  // ---------------------------------------------------------------- edits by others

  lemma StoreGrows(c: Codec, still: bool, s: State, store: Store)
    requires Invariant(c, still, s)
    requires s.store.keyValues <= store.keyValues && s.store.featureFlags <= store.featureFlags
    requires SentinelsAdvance(store.keyValues)
    ensures Invariant(c, still, s.(store := store))
  {
    hide TracksSelected;
    if s.recon.Some? && s.recon.value.generation == s.provider.generation {
      SelectedGrows(still, s.provider.spec, s.store, store, SeenBy(s.recon.value));
    }
    if Matches(s) {
      var v: nat, w: nat :| StandsFor(c, s.provider.spec, s.cluster, s.store, v, w)
                         && AllAtMost(still, s.recon.value, s.provider.spec, s.store, v, w);
      assert StandsFor(c, s.provider.spec, s.cluster, store, v, w);
    }
  }

  lemma EditKeepsInvariant(c: Codec, still: bool, s: State, e: Event)
    requires Invariant(c, still, s) && Allowed(s, e) && !e.Reconciles?
    ensures Invariant(c, still, Next(c, s, e))
  {
    hide TracksSelected, Reflects, FullData;
    var s' := Next(c, s, e);
    match e
    case EditsStore(store) => StoreGrows(c, still, s, store);
    case EditsAnnotations(_) =>
      if s.recon.Some? && Matches(s') {
        assert Matches(s);
        var v: nat, w: nat :| StandsFor(c, s.provider.spec, s.cluster, s.store, v, w)
                           && AllAtMost(still, s.recon.value, s.provider.spec, s.store, v, w);
        assert StandsFor(c, s'.provider.spec, s'.cluster, s'.store, v, w);
      }
    case EditsConfigMap(name, _) =>
      if s.recon.Some? && Matches(s') {
        assert Matches(s)
               && s'.cluster.configMaps[s.provider.spec.configMapName]
                  == s.cluster.configMaps[s.provider.spec.configMapName];
        var v: nat, w: nat :| StandsFor(c, s.provider.spec, s.cluster, s.store, v, w)
                           && AllAtMost(still, s.recon.value, s.provider.spec, s.store, v, w);
        assert StandsFor(c, s'.provider.spec, s'.cluster, s'.store, v, w);
      }
    case EditsSecret(_, _) =>
      if s.recon.Some? && Matches(s') {
        assert Matches(s);
        var v: nat, w: nat :| StandsFor(c, s.provider.spec, s.cluster, s.store, v, w)
                           && AllAtMost(still, s.recon.value, s.provider.spec, s.store, v, w);
        assert StandsFor(c, s'.provider.spec, s'.cluster, s'.store, v, w);
      }
    case EditsSpec(_, _, _, _) =>
      var last := |s.store.keyValues|;
      assert SentinelAt(s.store, last - 1) == SentinelAt(s'.store, last - 1) <= SentinelAt(s'.store, last);
    case Restarts =>
  }

  // ---------------------------------------------------------------- preparing

  lemma ResetIsSelected(still: bool, spec: Spec, store: Store, recon: Recon, cluster: Cluster)
    ensures TracksSelected(still, spec, store, SeenBy(recon)) ==>
              TracksSelected(still, spec, store, SeenBy(Reset(spec, recon, cluster)))
  {
    if TracksSelected(still, spec, store, SeenBy(recon)) {
      SameAreSelected(still, spec, store, SeenBy(recon), SeenBy(Reset(spec, recon, cluster)));
    }
  }

  lemma PrepareKeepsInvariant(c: Codec, still: bool, s: State, env: Env)
    requires Invariant(c, still, s)
    ensures var (ready, recon) := Prepare(s.provider, s.cluster, s.recon, env);
            && Invariant(c, still, s.(recon := recon))
            && (ready ==> recon.Some?)
            && (ready && recon.value.configMapVersion.Some? ==> s.provider.spec.configMapName in s.cluster.configMaps)
  {
    hide TracksSelected;
    var recon := s.recon.GetOr(INITIAL);
    var initial := s.(recon := Some(recon));
    assert Invariant(c, still, initial);
    var reset := Reset(s.provider.spec, recon, s.cluster);
    ResetIsSelected(still, s.provider.spec, s.store, recon, s.cluster);
    var prepared := s.(recon := Some(reset));
    assert Invariant(c, still, prepared) by {
      if Matches(prepared) {
        assert Matches(initial);
        var v: nat, w: nat :| StandsFor(c, s.provider.spec, s.cluster, s.store, v, w)
                           && AllAtMost(still, recon, s.provider.spec, s.store, v, w);
        assert AllAtMost(still, reset, s.provider.spec, s.store, v, w);
      }
    }
    var managed := s.(recon := Some(reset.(hasClientManager := true)));
    assert Invariant(c, still, managed) by {
      if Matches(managed) {
        assert Matches(prepared);
        var v: nat, w: nat :| StandsFor(c, s.provider.spec, s.cluster, s.store, v, w)
                           && AllAtMost(still, reset, s.provider.spec, s.store, v, w);
        assert AllAtMost(still, managed.recon.value, s.provider.spec, s.store, v, w);
      }
    }
  }

  // ---------------------------------------------------------------- populating

  /** The same state but for the three deadlines. */
  ghost predicate SameButDeadlines(a: Recon, b: Recon) {
    a == b.(nextKeyValue := a.nextKeyValue, nextSecret := a.nextSecret, nextFeatureFlag := a.nextFeatureFlag)
  }

  /** The ETags that the run will have recorded when it is done. */
  function NewKeyValueETags(run: Run): Option<nat> {
    if run.options.updatedKeyValueETags.Some? then run.options.updatedKeyValueETags else run.recon.keyValueETags
  }

  function NewSentinelETags(run: Run): Option<nat> {
    if run.shouldReconcile || run.options.sentinelChanged then run.options.updatedSentinelETags
      else run.recon.sentinelETags
  }

  function NewFeatureFlagETags(run: Run): Option<nat> {
    if run.options.updatedFeatureFlagETags.Some? then run.options.updatedFeatureFlagETags
      else run.recon.featureFlagETags
  }

  /** The Secrets that the run will track when it is done. */
  function NewSecrets(run: Run): map<string, Tracked> {
    if run.options.secretSettingPopulated then MetadataOf(run) else run.recon.secrets
  }

  function SeenAfter(run: Run): Seen { Seen(NewKeyValueETags(run), NewSentinelETags(run), NewSecrets(run)) }

  /** The sentinels that are recorded, and that will be, are no newer than version v. */
  ghost predicate SentinelsHalfway(still: bool, s: State, run: Run, v: nat) {
    && SentinelsAdvance(s.store.keyValues)
    && SentinelKnown(NewSentinelETags(run), s.store) && SentinelKnown(run.recon.sentinelETags, s.store)
    && (still ==>
          && SentinelAtMost(NewSentinelETags(run), s.provider.spec, s.store, v)
          && (run.recon.generation == s.provider.generation ==>
                SentinelAtMost(run.recon.sentinelETags, s.provider.spec, s.store, v)))
  }

  /** Halfway through populating: the run's data, or else the live ConfigMap, stands for
      versions v and w, and the ETags are at most these. */
  ghost predicate Halfway(c: Codec, still: bool, s: State, env: Env, run: Run, v: nat, w: nat) {
    var spec := s.provider.spec;
    && v <= env.keyValuesFetched < |s.store.keyValues| && w <= env.featureFlagsFetched < |s.store.featureFlags|
    && (if run.options.configMapSettingPopulated
        then run.settings.configMap == Some(FullData(c, spec, s.store, v, w))
        else run.settings.configMap.None? && !run.shouldReconcile && StandsFor(c, spec, s.cluster, s.store, v, w))
    && AtMost(NewKeyValueETags(run), NewFeatureFlagETags(run), spec, v, w)
    && SentinelsHalfway(still, s, run, v)
    && TracksSelected(still, spec, s.store, SeenAfter(run))
    && (run.recon.generation == s.provider.generation ==>
          ETagsAtMost(run.recon, spec, v, w)
          && TracksSelected(still, spec, s.store, SeenBy(run.recon)))
    && (run.shouldReconcile ==>
          run.options.configMapSettingPopulated && run.options.secretSettingPopulated == spec.secret.Some?)
    && (!run.shouldReconcile ==>
          run.recon.generation == s.provider.generation && spec.configMapName in s.cluster.configMaps)
    && (run.options.secretSettingPopulated ==> spec.secret.Some?)
  }

  lemma FullReconciliationFacts(c: Codec, still: bool, s: State, env: Env, run: Run)
    requires SentinelsAdvance(s.store.keyValues) && env.keyValuesFetched <= env.sentinelRead < |s.store.keyValues|
    requires SentinelKnown(run.recon.sentinelETags, s.store)
    requires still ==>
               SentinelsStill(env, s.store) && SentinelAtMost(run.recon.sentinelETags, s.provider.spec, s.store,
                                                              env.keyValuesFetched)
    requires env.keyValuesFetched < |s.store.keyValues| && env.featureFlagsFetched < |s.store.featureFlags|
    requires run.shouldReconcile && run.options == NEW_OPTIONS
    requires run.recon.generation == s.provider.generation ==>
               && ETagsAtMost(run.recon, s.provider.spec, env.keyValuesFetched, env.featureFlagsFetched)
               && TracksSelected(still, s.provider.spec, s.store, SeenBy(run.recon))
    ensures var step := FullReconciliation(c, s.provider, s.store, env, run);
            && !step.Crash? && step.run.recon == run.recon && step.run.cluster == run.cluster
            && (step.Go? ==>
                  step.run.shouldReconcile && Halfway(c, still, s, env, step.run, env.keyValuesFetched,
                                                      env.featureFlagsFetched))
  {
    hide TracksSelected, Resolved, SelectedMetadata, Typed;
    var fetched := env.keyValuesFetched;
    var step := FullReconciliation(c, s.provider, s.store, env, run);
    if s.provider.spec.secret.None? {
      NothingIsSelected(still, s.provider.spec, s.store);
    } else if step.Go? {
      FetchedAreSelected(still, s.provider.spec, s.store, Some(fetched), step.run.options.updatedSentinelETags,
                         fetched);
    }
  }

  lemma NothingIsSelected(still: bool, spec: Spec, store: Store)
    requires spec.secret.None?
    ensures forall seen: Seen :: TracksSelected(still, spec, store, seen)
  {
  }

  /** The live data that a refresh starts from. */
  function LiveData(cluster: Cluster, name: string): Data {
    if name in cluster.configMaps then cluster.configMaps[name].data else map[]
  }

  /** A phase keeps the recorded state but for deadlines, and the cluster. */
  ghost predicate Advances(before: Run, step: Step) {
    && !step.Crash? && SameButDeadlines(step.run.recon, before.recon)
    && step.run.cluster == before.cluster && step.run.shouldReconcile == before.shouldReconcile
  }

  /** The parts of a run that Halfway speaks about are the same. */
  ghost predicate SameSoFar(a: Run, b: Run) {
    && a.settings == b.settings && SameButDeadlines(a.recon, b.recon) && a.shouldReconcile == b.shouldReconcile
    && a.options.configMapSettingPopulated == b.options.configMapSettingPopulated
    && a.options.secretSettingPopulated == b.options.secretSettingPopulated
    && a.options.updatedKeyValueETags == b.options.updatedKeyValueETags
    && a.options.updatedFeatureFlagETags == b.options.updatedFeatureFlagETags
  }

  lemma SameSoFarIsHalfway(c: Codec, still: bool, s: State, env: Env, before: Run, after: Run, v: nat, w: nat)
    requires Halfway(c, still, s, env, before, v, w) && SameSoFar(after, before)
    requires NewSentinelETags(after) == NewSentinelETags(before)
    ensures Halfway(c, still, s, env, after, v, w)
  {
    hide FullData, StandsFor, TracksSelected;
  }

  lemma SameSentinels(still: bool, s: State, before: Run, v: nat)
    requires SentinelsHalfway(still, s, before, v)
    ensures forall after: Run :: SentinelsHalfway(still, s, after, v)
              <== NewSentinelETags(after) == NewSentinelETags(before)
                  && after.recon.sentinelETags == before.recon.sentinelETags
                  && after.recon.generation == before.recon.generation
  {
  }

  /** Other sentinels do not matter when they need not be covered. */
  lemma ChangedAreForgotten(still: bool, spec: Spec, store: Store, a: Seen, b: Seen)
    requires TracksSelected(still, spec, store, a) && b == a.(sentinelETags := b.sentinelETags)
    ensures TracksSelected(false, spec, store, b)
  {
    hide SelectedMetadata;
    if spec.secret.Some? {
      var u: nat :| SeenAt(still, spec, store, a, u);
      assert SeenAt(false, spec, store, b, u);
    }
  }

  /** Changed sentinels have been read; they will be recorded with key-values fetched later. */
  lemma ChangedSentinels(c: Codec, still: bool, s: State, env: Env, before: Run, after: Run, v: nat, w: nat)
    requires Halfway(c, still, s, env, before, v, w) && SameSoFar(after, before) && !after.shouldReconcile
    requires env.sentinelChecked <= env.keyValuesFetched
    requires NewSentinelETags(after) in {NewSentinelETags(before), Some(SentinelAt(s.store, env.sentinelChecked))}
    requires !before.options.secretSettingPopulated
    ensures Halfway(c, false, s, env, after, v, w) && SentinelsHalfway(still, s, after, env.keyValuesFetched)
    ensures TracksSelected(still, s.provider.spec, s.store, SeenBy(after.recon))
  {
    hide FullData, StandsFor, TracksSelected;
    ChangedAreForgotten(still, s.provider.spec, s.store, SeenAfter(before), SeenAfter(after));
    SelectedForgets(still, s.provider.spec, s.store, SeenBy(before.recon));
    assert SeenBy(after.recon) == SeenBy(before.recon);
    assert SentinelAt(s.store, v) <= SentinelAt(s.store, env.keyValuesFetched)
           <= SentinelAt(s.store, |s.store.keyValues| - 1);
    assert SentinelAt(s.store, env.sentinelChecked) <= SentinelAt(s.store, env.keyValuesFetched);
  }

  /** An enabled refresh whose deadline has passed. */
  predicate FeatureFlagsDue(spec: Spec, recon: Recon, env: Env) {
    FeatureFlagRefreshEnabled(spec) && env.now > recon.nextFeatureFlag
  }

  predicate KeyValuesDue(spec: Spec, recon: Recon, env: Env) {
    KeyValueRefreshEnabled(spec) && env.now > recon.nextKeyValue
  }

  /** What examining the store establishes about the versions that the data stands for: they
      are those fetched, or no older than those checked; with sentinels that have been still,
      no older than the sentinels seen. */
  ghost predicate FlagsExamined(env: Env, w: nat) {
    w == env.featureFlagsFetched || env.featureFlagsChecked <= w
  }

  ghost predicate KeyValuesExamined(still: bool, spec: Spec, store: Store, env: Env, v: nat) {
    || v == env.keyValuesFetched
    || (if spec.monitoring then still ==> SentinelAt(store, env.sentinelChecked) <= SentinelAt(store, v)
        else env.keyValuesChecked <= v)
  }

  // -- feature flags

  lemma DueFeatureFlagFacts(c: Codec, still: bool, s: State, env: Env, due: Time, run: Run, v: nat, w: nat)
    returns (w': nat)
    requires ValidSpec(s.provider.spec) && Inverse(c) && Halfway(c, still, s, env, run, v, w)
    requires FeatureFlagRefreshEnabled(s.provider.spec) && !run.shouldReconcile
    requires run.settings.configMap.None? && !run.options.secretSettingPopulated
    ensures var spec := s.provider.spec;
            var step := DueFeatureFlagRefresh(c, spec, s.store, env, LiveData(s.cluster, spec.configMapName), due, run);
            && Advances(run, step)
            && (step.Go? ==> Halfway(c, still, s, env, step.run, v, w') && !step.run.options.secretSettingPopulated
                             && FlagsExamined(env, w'))
  {
    hide Halfway, RefreshFeatureFlags;
    if PagesChanged(run.recon.featureFlagETags, env.featureFlagsChecked) {
      w' := env.featureFlagsFetched;
      ReloadedFlagsFacts(c, still, s, env, due, run, v, w);
    } else {
      w' := w;
      RecordedFlagsAreCovered(c, still, s, env, run, v, w);
      SameSoFarIsHalfway(c, still, s, env, run, NextFeatureFlag(run, due), v, w);
    }
  }

  lemma RecordedFlagsAreCovered(c: Codec, still: bool, s: State, env: Env, run: Run, v: nat, w: nat)
    requires Halfway(c, still, s, env, run, v, w) && !run.shouldReconcile && s.provider.spec.featureFlag.Some?
    ensures run.recon.featureFlagETags.Some? && run.recon.featureFlagETags.value <= w
  {
    hide FullData, StandsFor, TracksSelected, SentinelsHalfway;
  }

  /** Changed flags make the document of a full load with them. */
  lemma ReloadedFlagsFacts(c: Codec, still: bool, s: State, env: Env, due: Time, run: Run, v: nat, w: nat)
    requires ValidSpec(s.provider.spec) && Inverse(c) && Halfway(c, still, s, env, run, v, w)
    requires FeatureFlagRefreshEnabled(s.provider.spec) && !run.shouldReconcile
    requires run.settings.configMap.None? && !run.options.secretSettingPopulated
    requires PagesChanged(run.recon.featureFlagETags, env.featureFlagsChecked)
    ensures var spec := s.provider.spec;
            var step := DueFeatureFlagRefresh(c, spec, s.store, env, LiveData(s.cluster, spec.configMapName), due, run);
            && Advances(run, step)
            && (step.Go? ==> Halfway(c, still, s, env, step.run, v, env.featureFlagsFetched)
                             && !step.run.options.secretSettingPopulated)
  {
    hide FullData, Halfway, RefreshFeatureFlags;
    ReloadedFlagsAreFull(c, still, s, env, run, v, w);
    var spec, called := s.provider.spec, Called(run, RefreshFeatureFlagSettings);
    if env.fault(CheckFeatureFlagETags) == Fine && env.fault(RefreshFeatureFlagSettings) == Fine {
      NewFlagsAreHalfway(c, still, s, env, run, called.trace, due, v, w);
    }
  }

  lemma NewFlagsAreHalfway(c: Codec, still: bool, s: State, env: Env, run: Run, trace: seq<Call>, due: Time, v: nat,
                           w: nat)
    requires Halfway(c, still, s, env, run, v, w) && !run.shouldReconcile && !run.options.secretSettingPopulated
    ensures var flags := env.featureFlagsFetched;
            var options := run.options.(featureFlagRefreshNeeded := true, configMapSettingPopulated := true,
                                        updatedFeatureFlagETags := Some(flags));
            var settings := Settings(Some(FullData(c, s.provider.spec, s.store, v, flags)), map[], Own(map[]));
            Halfway(c, still, s, env, NextFeatureFlag(run.(options := options, settings := settings, trace := trace),
                                                      due), v, flags)
  {
    hide FullData, StandsFor, SentinelsHalfway, TracksSelected;
    SameSentinels(still, s, run, v);
  }

  lemma ReloadedFlagsAreFull(c: Codec, still: bool, s: State, env: Env, run: Run, v: nat, w: nat)
    requires ValidSpec(s.provider.spec) && Inverse(c) && Halfway(c, still, s, env, run, v, w)
    requires FeatureFlagRefreshEnabled(s.provider.spec) && run.settings.configMap.None?
    ensures var spec, flags := s.provider.spec, env.featureFlagsFetched;
            RefreshFeatureFlags(c, s.store.featureFlags[flags], LiveData(s.cluster, spec.configMapName),
                                spec.configMapData.value)
            == Some(FullData(c, spec, s.store, v, flags))
  {
    hide Typed, RefreshFeatureFlags, Reflects, SentinelsHalfway, TracksSelected;
    var spec := s.provider.spec;
    var data := LiveData(s.cluster, spec.configMapName);
    FeatureFlagRefreshIsFull(c, s.store.keyValues[v].settings, s.store.featureFlags[w],
                             s.store.featureFlags[env.featureFlagsFetched], data, spec.configMapData);
  }

  lemma FeatureFlagRefreshFacts(c: Codec, still: bool, s: State, env: Env, run: Run, v: nat, w: nat) returns (w': nat)
    requires ValidSpec(s.provider.spec) && Inverse(c) && Halfway(c, still, s, env, run, v, w)
    requires !run.shouldReconcile ==> run.settings.configMap.None? && !run.options.secretSettingPopulated
    ensures var step :=
      FeatureFlagRefresh(c, s.provider, s.store, env, LiveData(s.cluster, s.provider.spec.configMapName), run);
            && Advances(run, step)
            && (step.Go? ==> Halfway(c, still, s, env, step.run, v, w'))
            && (run.shouldReconcile ==> w' == w)
            && (step.Go? && !run.shouldReconcile && FeatureFlagsDue(s.provider.spec, run.recon, env) ==>
                  FlagsExamined(env, w'))
  {
    hide DueFeatureFlagRefresh, Halfway, FlagsExamined;
    var spec := s.provider.spec;
    w' := w;
    var enabled := WithOptions(run, run.options.(featureFlagRefreshEnabled := true));
    if !FeatureFlagRefreshEnabled(spec) {
      SameSoFarIsHalfway(c, still, s, env, run, NextFeatureFlag(run, 0), v, w);
    } else {
      SameSoFarIsHalfway(c, still, s, env, run, enabled, v, w);
      var due := DeadlineAfter(env, spec.featureFlag.value);
      SameSoFarIsHalfway(c, still, s, env, run, NextFeatureFlag(enabled, due), v, w);
      if !run.shouldReconcile && env.now > run.recon.nextFeatureFlag {
        var called := Called(enabled, CheckFeatureFlagETags);
        SameSoFarIsHalfway(c, still, s, env, run, called, v, w);
        w' := DueFeatureFlagFacts(c, still, s, env, due, called, v, w);
      }
    }
  }

  // -- key-values

  lemma ReloadedAreSelected(still: bool, s: State, env: Env, run: Run)
    requires env.keyValuesFetched < |s.store.keyValues| && NewKeyValueETags(run).Some?
    requires NewKeyValueETags(run).value <= env.keyValuesFetched
    requires SentinelsHalfway(still, s, run, env.keyValuesFetched)
    ensures var fetched, spec := env.keyValuesFetched, s.provider.spec;
            forall e :: e in {NewKeyValueETags(run), Some(fetched)} ==>
              TracksSelected(still, spec, s.store,
                             Seen(e, NewSentinelETags(run),
                                  SelectedMetadata(spec, s.store.keyValues[fetched].references)))
    ensures s.provider.spec.secret.None? ==> forall seen: Seen :: TracksSelected(still, s.provider.spec, s.store, seen)
  {
    hide TracksSelected;
    var fetched, sentinels := env.keyValuesFetched, NewSentinelETags(run);
    FetchedAreSelected(still, s.provider.spec, s.store, NewKeyValueETags(run), sentinels, fetched);
    FetchedAreSelected(still, s.provider.spec, s.store, Some(fetched), sentinels, fetched);
    if s.provider.spec.secret.None? {
      NothingIsSelected(still, s.provider.spec, s.store);
    }
  }

  lemma ReloadKeyValuesFacts(c: Codec, still: bool, s: State, env: Env, due: Time, run: Run, v: nat, w: nat)
    requires ValidSpec(s.provider.spec) && Inverse(c) && Halfway(c, false, s, env, run, v, w) && !run.shouldReconcile
    requires SentinelsHalfway(still, s, run, env.keyValuesFetched)
    requires TracksSelected(still, s.provider.spec, s.store, SeenBy(run.recon))
    ensures var spec := s.provider.spec;
            var existing := run.settings.configMap.GetOr(LiveData(s.cluster, spec.configMapName));
            var step := ReloadKeyValues(c, spec, s.store, env, existing, due, run);
            && Advances(run, step)
            && (step.Go? ==> Halfway(c, still, s, env, step.run, env.keyValuesFetched, w))
  {
    hide Typed, RefreshKeyValues, Reflects, Resolved, TracksSelected, SelectedMetadata, SentinelsHalfway;
    var spec := s.provider.spec;
    SameSentinels(still, s, run, env.keyValuesFetched);
    ReloadedAreSelected(still, s, env, run);
    var existing := run.settings.configMap.GetOr(LiveData(s.cluster, spec.configMapName));
    WrittenOrSkippedReflects(c, existing, existing, spec.configMapData);
    KeyValueRefreshIsFull(c, s.store.keyValues[v].settings, Flags(spec, s.store, w),
                          s.store.keyValues[env.keyValuesFetched].settings, existing, spec.configMapData);
  }

  lemma CheckedParts(spec: Spec, store: Store, env: Env, recon: Recon, o: RefreshOptions)
    requires !o.sentinelChanged
    ensures var checked := CheckedOptions(spec, store, env, recon, o);
            && checked.configMapSettingPopulated == o.configMapSettingPopulated
            && checked.secretSettingPopulated == o.secretSettingPopulated
            && checked.updatedKeyValueETags == o.updatedKeyValueETags
            && checked.updatedFeatureFlagETags == o.updatedFeatureFlagETags
            && (checked.sentinelChanged ==>
                  checked.updatedSentinelETags == Some(SentinelAt(store, env.sentinelChecked)))
  {
  }

  lemma CalledParts(run: Run, o: RefreshOptions, time: Time, check: Call, call: Call)
    ensures var called := WithOptions(Called(run, check), o);
            forall after: Run :: after in {called, NextKeyValue(called, time), Called(called, call)} ==>
              && after.options == o && after.settings == run.settings && after.shouldReconcile == run.shouldReconcile
              && SameButDeadlines(after.recon, run.recon) && after.recon.sentinelETags == run.recon.sentinelETags
  {
  }

  /** What a check does to a run, with or without a change. */
  lemma CheckedRun(c: Codec, s: State, env: Env, due: Time, run: Run)
    requires !run.shouldReconcile && !run.options.sentinelChanged
    ensures var spec := s.provider.spec;
            var checked := CheckedOptions(spec, s.store, env, run.recon, run.options);
            var called := WithOptions(Called(run, KeyValueCheck(spec)), checked);
            var same, next := NextKeyValue(called, due), Called(called, RefreshKeyValueSettings);
            && SameSoFar(same, run) && SameSoFar(next, run) && !next.shouldReconcile
            && NewSentinelETags(next) in {NewSentinelETags(run), Some(SentinelAt(s.store, env.sentinelChecked))}
            && (!checked.sentinelChanged ==> NewSentinelETags(same) == NewSentinelETags(run))
  {
    hide CheckedOptions, WithOptions, NextKeyValue, Called, SameButDeadlines;
    CheckedParts(s.provider.spec, s.store, env, run.recon, run.options);
    CalledParts(run, CheckedOptions(s.provider.spec, s.store, env, run.recon, run.options), due,
                KeyValueCheck(s.provider.spec), RefreshKeyValueSettings);
  }

  lemma DueKeyValueFacts(c: Codec, still: bool, s: State, env: Env, due: Time, run: Run, v: nat, w: nat)
    returns (v': nat)
    requires ValidSpec(s.provider.spec) && Inverse(c) && Halfway(c, still, s, env, run, v, w) && !run.shouldReconcile
    requires env.sentinelChecked <= env.keyValuesFetched && KeyValueRefreshEnabled(s.provider.spec)
    requires !run.options.sentinelChanged && !run.options.secretSettingPopulated
    ensures var spec := s.provider.spec;
            var step := DueKeyValueRefresh(c, spec, s.store, env, LiveData(s.cluster, spec.configMapName), due, run);
            && Advances(run, step)
            && (step.Go? ==>
                  Halfway(c, still, s, env, step.run, v', w) && KeyValuesExamined(still, spec, s.store, env, v'))
  {
    hide ReloadKeyValues, Halfway, SameSoFar, NewSentinelETags;
    CheckedRun(c, s, env, due, run);
    RecordedIsCovered(c, still, s, env, run, v, w);
    var spec := s.provider.spec;
    var called := Called(run, KeyValueCheck(spec));
    var checked := CheckedOptions(spec, s.store, env, run.recon, run.options);
    if !checked.sentinelChanged && !checked.keyValuePageETagsChanged {
      v' := v;
      SameSoFarIsHalfway(c, still, s, env, run, NextKeyValue(WithOptions(called, checked), due), v, w);
    } else {
      v' := env.keyValuesFetched;
      var next := Called(WithOptions(called, checked), RefreshKeyValueSettings);
      ChangedSentinels(c, still, s, env, run, next, v, w);
      ReloadKeyValuesFacts(c, still, s, env, due, next, v, w);
    }
  }

  lemma RecordedIsCovered(c: Codec, still: bool, s: State, env: Env, run: Run, v: nat, w: nat)
    requires Halfway(c, still, s, env, run, v, w) && !run.shouldReconcile
    ensures run.recon.keyValueETags.Some? && run.recon.keyValueETags.value <= v
    ensures still ==> SentinelAtMost(run.recon.sentinelETags, s.provider.spec, s.store, v)
  {
    hide FullData, StandsFor, TracksSelected;
  }

  lemma KeyValueRefreshFacts(c: Codec, still: bool, s: State, env: Env, run: Run, v: nat, w: nat) returns (v': nat)
    requires ValidSpec(s.provider.spec) && Inverse(c) && Halfway(c, still, s, env, run, v, w)
    requires env.sentinelChecked <= env.keyValuesFetched
    requires !run.shouldReconcile ==> !run.options.sentinelChanged && !run.options.secretSettingPopulated
    ensures var step :=
      KeyValueRefresh(c, s.provider, s.store, env, LiveData(s.cluster, s.provider.spec.configMapName), run);
            && Advances(run, step)
            && (step.Go? ==> Halfway(c, still, s, env, step.run, v', w))
            && (run.shouldReconcile ==> v' == v)
            && (step.Go? && !run.shouldReconcile && KeyValuesDue(s.provider.spec, run.recon, env)
                ==> KeyValuesExamined(still, s.provider.spec, s.store, env, v'))
  {
    hide DueKeyValueRefresh, Halfway, KeyValuesExamined;
    var spec := s.provider.spec;
    v' := v;
    var enabled := WithOptions(run, run.options.(keyValueRefreshEnabled := true));
    if !KeyValueRefreshEnabled(spec) {
      SameSoFarIsHalfway(c, still, s, env, run, NextKeyValue(run, 0), v, w);
    } else {
      SameSoFarIsHalfway(c, still, s, env, run, enabled, v, w);
      var due := DeadlineAfter(env, spec.keyValueRefresh);
      SameSoFarIsHalfway(c, still, s, env, run, NextKeyValue(enabled, due), v, w);
      if !run.shouldReconcile && env.now > run.recon.nextKeyValue {
        v' := DueKeyValueFacts(c, still, s, env, due, enabled, v, w);
      }
    }
  }

  // -- secrets

  lemma DueSecretFacts(c: Codec, still: bool, s: State, env: Env, existing: map<string, Secret>, due: Time, run: Run,
                       v: nat, w: nat)
    requires Halfway(c, still, s, env, run, v, w) && !run.shouldReconcile && s.provider.spec.secret.Some?
    requires !run.options.secretSettingPopulated
    ensures var step := DueSecretRefresh(c, s.provider.spec, env, existing, due, run);
            && Advances(run, step)
            && (step.Go? ==> Halfway(c, still, s, env, step.run, v, w))
  {
    hide FullData, StandsFor, RefreshedSecrets, WritesIntoNil, TracksSelected, SentinelsHalfway;
    SameSentinels(still, s, run, v);
  }

  lemma NotPopulatedIsNoLoad(c: Codec, still: bool, s: State, env: Env, run: Run, v: nat, w: nat)
    requires Halfway(c, still, s, env, run, v, w)
    ensures s.provider.spec.secret.Some? && !run.options.secretSettingPopulated ==> !run.shouldReconcile
  {
    hide FullData, StandsFor, TracksSelected, SentinelsHalfway;
  }

  lemma SecretRefreshFacts(c: Codec, still: bool, s: State, env: Env, existing: map<string, Secret>, run: Run, v: nat,
                           w: nat)
    requires Halfway(c, still, s, env, run, v, w)
    ensures var step := SecretReferenceRefresh(c, s.provider, env, existing, run);
            && Advances(run, step)
            && (step.Go? ==> Halfway(c, still, s, env, step.run, v, w))
  {
    hide DueSecretRefresh, Halfway;
    var spec := s.provider.spec;
    NotPopulatedIsNoLoad(c, still, s, env, run, v, w);
    if !SecretRefreshEnabled(spec) {
      SameSoFarIsHalfway(c, still, s, env, run, NextSecret(run, 0), v, w);
    } else {
      var enabled := run.options.(secretReferenceRefreshEnabled := true);
      SameSoFarIsHalfway(c, still, s, env, run, WithOptions(run, enabled), v, w);
      if env.now > run.recon.nextSecret {
        var needed := WithOptions(run, enabled.(secretReferenceRefreshNeeded := true));
        var due := DeadlineAfter(env, spec.secret.value.refresh);
        SameSoFarIsHalfway(c, still, s, env, run, NextSecret(needed, due), v, w);
        if !run.options.secretSettingPopulated {
          var called := Called(needed, ResolveSecretReferences);
          SameSoFarIsHalfway(c, still, s, env, run, called, v, w);
          DueSecretFacts(c, still, s, env, existing, due, called, v, w);
        }
      }
    }
  }

  // -- all phases

  /** A reconcile that has prepared this state will load in full. */
  predicate LoadsInFull(s: State, recon: Recon) {
    ShouldReconcile(s.provider, recon, OptionalConfigMap(s.cluster, s.provider.spec.configMapName),
                    Live(s.cluster, NamesToCollect(s.provider.spec, recon)))
  }

  /** The state s has the store at the end of the reconcile; the invariant holds with the one
      at its start. */
  ghost predicate Prepared(c: Codec, still: bool, s: State, env: Env, start: Store, recon: Recon) {
    && ValidSpec(s.provider.spec) && Inverse(c)
    && s.recon == Some(recon) && Invariant(c, still, s.(store := start)) && ValidEnv(env, start, s.store)
    && (still && LoadsInFull(s, recon) ==> SentinelsStill(env, s.store))
    && (recon.configMapVersion.Some? ==> s.provider.spec.configMapName in s.cluster.configMaps)
  }

  /** When no full load is due, the live ConfigMap is one that the recorded ETags cover. */
  lemma NotDueStands(c: Codec, still: bool, s: State, env: Env, start: Store, recon: Recon, existing: map<string,
                     Secret>) returns (v: nat, w: nat)
    requires Prepared(c, still, s, env, start, recon)
    requires !ShouldReconcile(s.provider, recon, OptionalConfigMap(s.cluster, s.provider.spec.configMapName), existing)
    ensures Halfway(c, still, s, env, StartRun(recon, s.cluster), v, w)
  {
    hide Reflects, Typed, TracksSelected;
    var before := s.(store := start);
    SelectedGrows(still, s.provider.spec, start, s.store, SeenBy(recon));
    assert Matches(before);
    assert NothingLost(c, still, before);
    v, w :| StandsFor(c, s.provider.spec, s.cluster, start, v, w)
            && AllAtMost(still, recon, s.provider.spec, start, v, w);
  }

  /** A full load, or no load at all. */
  lemma FirstPhaseFacts(c: Codec, still: bool, s: State, env: Env, start: Store, recon: Recon, existing: map<string,
                        Secret>) returns (v: nat, w: nat)
    requires Prepared(c, still, s, env, start, recon)
    requires existing == Live(s.cluster, NamesToCollect(s.provider.spec, recon))
    ensures var should :=
      ShouldReconcile(s.provider, recon, OptionalConfigMap(s.cluster, s.provider.spec.configMapName), existing);
            var run := StartRun(recon, s.cluster).(shouldReconcile := should);
            var step := if should then FullReconciliation(c, s.provider, s.store, env, run) else Go(run);
            && Advances(run, step)
            && (step.Go? ==> Halfway(c, still, s, env, step.run, v, w))
            && (step.Go? && !should ==>
                  && step.run.settings.configMap.None? && !step.run.options.secretSettingPopulated
                  && !step.run.options.sentinelChanged)
            && (should ==> v == env.keyValuesFetched && w == env.featureFlagsFetched) && step.run.recon == recon
  {
    hide TracksSelected;
    var should := ShouldReconcile(s.provider, recon, OptionalConfigMap(s.cluster, s.provider.spec.configMapName),
                                  existing);
    if should {
      if recon.generation == s.provider.generation {
        SelectedGrows(still, s.provider.spec, start, s.store, SeenBy(recon));
      }
      v, w := env.keyValuesFetched, env.featureFlagsFetched;
      FullReconciliationFacts(c, still, s, env, StartRun(recon, s.cluster).(shouldReconcile := true));
    } else {
      v, w := NotDueStands(c, still, s, env, start, recon, existing);
    }
  }

  /** Whatever was due, and everything in a full load, has been examined. */
  ghost predicate Examined(still: bool, spec: Spec, store: Store, env: Env, full: bool, recon: Recon, v: nat, w: nat) {
    && (full || FeatureFlagsDue(spec, recon, env) ==> FlagsExamined(env, w))
    && (full || KeyValuesDue(spec, recon, env) ==> KeyValuesExamined(still, spec, store, env, v))
    && (full ==> v == env.keyValuesFetched && w == env.featureFlagsFetched)
  }

  lemma FetchedIsExamined(still: bool, spec: Spec, store: Store, env: Env)
    ensures FlagsExamined(env, env.featureFlagsFetched)
            && KeyValuesExamined(still, spec, store, env, env.keyValuesFetched)
  {
  }

  lemma FeatureFlagRefreshKeepsDeadline(c: Codec, s: State, env: Env, data: Data, run: Run)
    requires ValidSpec(s.provider.spec) && env.featureFlagsFetched < |s.store.featureFlags|
    ensures var after := FeatureFlagRefresh(c, s.provider, s.store, env, data, run).run;
            && after.recon.nextKeyValue == run.recon.nextKeyValue
            && after.options.sentinelChanged == run.options.sentinelChanged
            && after.options.secretSettingPopulated == run.options.secretSettingPopulated
  {
    hide RefreshFeatureFlags;
  }

  lemma PopulateFacts(c: Codec, still: bool, s: State, env: Env, start: Store, recon: Recon, existing: map<string,
                      Secret>) returns (v: nat, w: nat)
    requires Prepared(c, still, s, env, start, recon)
    requires existing == Live(s.cluster, NamesToCollect(s.provider.spec, recon))
    ensures var step :=
      PopulateSettings(c, s.provider, s.store, env, OptionalConfigMap(s.cluster, s.provider.spec.configMapName),
                                         existing, StartRun(recon, s.cluster));
            && !step.Crash? && SameButDeadlines(step.run.recon, recon) && step.run.cluster == s.cluster
            && step.run.shouldReconcile
               == ShouldReconcile(s.provider, recon, OptionalConfigMap(s.cluster, s.provider.spec.configMapName),
                                  existing)
            && (step.Go? ==>
                  Halfway(c, still, s, env, step.run, v, w)
                  && Examined(still, s.provider.spec, s.store, env, step.run.shouldReconcile, recon, v, w))
  {
    hide FullReconciliation, FeatureFlagRefresh, KeyValueRefresh, SecretReferenceRefresh, Halfway, Invariant,
         ShouldReconcile;
    hide FlagsExamined, KeyValuesExamined;
    v, w := FirstPhaseFacts(c, still, s, env, start, recon, existing);
    FetchedIsExamined(still, s.provider.spec, s.store, env);
    var should := ShouldReconcile(s.provider, recon, OptionalConfigMap(s.cluster, s.provider.spec.configMapName),
                                  existing);
    var run := StartRun(recon, s.cluster).(shouldReconcile := should);
    var first := if should then FullReconciliation(c, s.provider, s.store, env, run) else Go(run);
    var data := LiveData(s.cluster, s.provider.spec.configMapName);
    if first.Go? {
      w := FeatureFlagRefreshFacts(c, still, s, env, first.run, v, w);
      FeatureFlagRefreshKeepsDeadline(c, s, env, data, first.run);
      var second := FeatureFlagRefresh(c, s.provider, s.store, env, data, first.run);
      if second.Go? {
        v := KeyValueRefreshFacts(c, still, s, env, second.run, v, w);
        var third := KeyValueRefresh(c, s.provider, s.store, env, data, second.run);
        if third.Go? {
          SecretRefreshFacts(c, still, s, env, existing, third.run, v, w);
        }
      }
    }
  }

  // ---------------------------------------------------------------- writing

  /** What writing the ConfigMap leaves behind. */
  lemma WriteConfigMapFacts(c: Codec, still: bool, s: State, env: Env, run: Run, v: nat, w: nat)
    requires Halfway(c, still, s, env, run, v, w) && run.options.configMapSettingPopulated && run.cluster == s.cluster
    requires VersionsBounded(s.cluster)
    ensures var name := s.provider.spec.configMapName;
            var step := WriteConfigMap(c, s.provider, env, run);
            var after := step.run;
            && !step.Crash? && VersionsBounded(after.cluster) && after.cluster.nextVersion >= run.cluster.nextVersion
            && after.cluster.secrets == run.cluster.secrets
            && after.options == run.options && after.settings == run.settings
            && after.shouldReconcile == run.shouldReconcile
            && (step.Stop? ==> after.recon == run.recon)
            && (step.Stop? && after.cluster != run.cluster ==>
                  name in after.cluster.configMaps && after.cluster.configMaps[name].version == run.cluster.nextVersion)
            && (step.Go? ==>
                  && StandsFor(c, s.provider.spec, after.cluster, s.store, v, w)
                  && after.recon == run.recon.(configMapVersion := Some(after.cluster.configMaps[name].version)))
  {
    hide Typed, Reflects, ShouldCreateOrUpdateConfigMap;
    var name, latest := s.provider.spec.configMapName, run.settings.configMap.value;
    WrittenOrSkippedReflects(c, if name in run.cluster.configMaps then run.cluster.configMaps[name].data else latest,
                             latest, s.provider.spec.configMapData);
  }

  /** Writing and deleting Secrets touches only the Secrets and their recorded versions. */
  ghost predicate KeepsCore(before: Run, after: Run) {
    && after.cluster.configMaps == before.cluster.configMaps
    && after.cluster.nextVersion >= before.cluster.nextVersion
    && (VersionsBounded(before.cluster) ==> VersionsBounded(after.cluster))
    && after.recon == before.recon.(secrets := after.recon.secrets)
    && SameReferences(after.recon.secrets, before.recon.secrets)
    && SameReferences(MetadataOf(after), MetadataOf(before))
    && after.options == before.options && after.shouldReconcile == before.shouldReconcile
    && after.settings.secrets == before.settings.secrets
    && after.settings.metadata.Own? == before.settings.metadata.Own?
  }

  lemma KeepsCoreTransitive(a: Run, b: Run, d: Run)
    requires KeepsCore(a, b) && KeepsCore(b, d)
    ensures KeepsCore(a, d)
  {
  }

  lemma SetVersionKeepsCore(run: Run, name: string, version: nat)
    requires name in MetadataOf(run)
    ensures KeepsCore(run, SetVersion(run, name, version))
  {
  }

  lemma WithSecretKeepsCore(run: Run, provider: Provider, name: string, content: SecretContent)
    ensures KeepsCore(run, run.(cluster := WithSecret(run.cluster, provider, name, content)))
  {
  }

  lemma WriteOneSecretKeepsCore(c: Codec, provider: Provider, env: Env, existing: map<string, Secret>, name: string,
                                run: Run)
    requires name in run.settings.secrets
    ensures KeepsCore(run, WriteOneSecret(c, provider, env, existing, name, run).run)
  {
    hide KeepsCore, ParsedAt;
    var step := WriteOneSecret(c, provider, env, existing, name, run);
    if step.Crash? {
      assert KeepsCore(run, run) by { KeepsCoreReflexive(run); }
    } else {
      var latest := run.settings.secrets[name];
      var live := if name in existing then Some(existing[name].data) else None;
      if !ShouldCreateOrUpdateSecret(c, provider.spec.secret.value, name, latest.data, run.settings.metadata.Shared?,
                                     live) {
        SetVersionKeepsCore(run, name, existing[name].version);
      } else {
        var called := Called(run, PutSecret(name));
        var written := called.(cluster := WithSecret(run.cluster, provider, name, latest));
        CalledKeepsCore(run, PutSecret(name));
        WithSecretKeepsCore(called, provider, name, latest);
        KeepsCoreTransitive(run, called, written);
        SetVersionKeepsCore(written, name, run.cluster.nextVersion);
        KeepsCoreTransitive(run, written, SetVersion(written, name, run.cluster.nextVersion));
      }
    }
  }

  lemma KeepsCoreReflexive(run: Run)
    ensures KeepsCore(run, run)
  {
  }

  lemma CalledKeepsCore(run: Run, call: Call)
    ensures KeepsCore(run, Called(run, call))
  {
  }

  lemma KeepsCoreSecrets(before: Run, after: Run)
    requires KeepsCore(before, after)
    ensures after.settings.secrets == before.settings.secrets
  {
  }

  lemma {:induction false} WriteSecretsKeepsCore(c: Codec, provider: Provider, env: Env, existing: map<string, Secret>,
                                                names: seq<string>, run: Run)
    requires forall n :: n in names ==> n in run.settings.secrets
    ensures KeepsCore(run, WriteSecrets(c, provider, env, existing, names, run).run)
    decreases names
  {
    hide KeepsCore, WriteOneSecret;
    if names == [] {
      KeepsCoreReflexive(run);
    } else {
      var step := WriteOneSecret(c, provider, env, existing, names[0], run);
      WriteOneSecretKeepsCore(c, provider, env, existing, names[0], run);
      KeepsCoreSecrets(run, step.run);
      if step.Go? {
        WriteSecretsKeepsCore(c, provider, env, existing, names[1..], step.run);
        KeepsCoreTransitive(run, step.run, WriteSecrets(c, provider, env, existing, names[1..], step.run).run);
      }
    }
  }

  lemma DeletedKeepsCore(run: Run, name: string)
    ensures KeepsCore(run, run.(cluster := run.cluster.(secrets := run.cluster.secrets - {name})))
  {
  }

  lemma {:induction false} ExpelSecretsKeepsCore(env: Env, keep: set<string>, names: seq<string>, run: Run)
    ensures KeepsCore(run, ExpelSecrets(env, keep, names, run).run)
    ensures !ExpelSecrets(env, keep, names, run).Crash?
    decreases names
  {
    hide KeepsCore;
    if names == [] {
      KeepsCoreReflexive(run);
    } else if names[0] in keep {
      ExpelSecretsKeepsCore(env, keep, names[1..], run);
    } else {
      var called := Called(run, DeleteSecret(names[0]));
      var deleted := called.(cluster := run.cluster.(secrets := run.cluster.secrets - {names[0]}));
      CalledKeepsCore(run, DeleteSecret(names[0]));
      DeletedKeepsCore(called, names[0]);
      KeepsCoreTransitive(run, called, deleted);
      if env.fault(DeleteSecret(names[0])) == Fine {
        ExpelSecretsKeepsCore(env, keep, names[1..], deleted);
        KeepsCoreTransitive(run, deleted, ExpelSecrets(env, keep, names[1..], deleted).run);
      }
    }
  }

  lemma SyncSecretsKeepsCore(c: Codec, provider: Provider, env: Env, existing: map<string, Secret>, run: Run)
    requires ListsKeys(env)
    ensures KeepsCore(run, SyncSecrets(c, provider, env, existing, run).run)
  {
    hide KeepsCore, WriteSecrets, ExpelSecrets;
    KeepsCoreReflexive(run);
    if !run.options.secretSettingPopulated {
      ExpelSecretsKeepsCore(env, MetadataOf(run).Keys, env.order(existing.Keys), run);
    } else if ReadsNew(provider, env, existing, run) {
      var collected := Collected(existing, run);
      var names := env.order(run.settings.secrets.Keys);
      assert Lists(names, run.settings.secrets.Keys);
      WriteSecretsKeepsCore(c, provider, env, collected, names, run);
      var step := WriteSecrets(c, provider, env, collected, names, run);
      if step.Go? {
        ExpelSecretsKeepsCore(env, MetadataOf(step.run).Keys, env.order(collected.Keys), step.run);
        KeepsCoreTransitive(run, step.run,
                            ExpelSecrets(env, MetadataOf(step.run).Keys, env.order(collected.Keys), step.run).run);
      }
    }
  }

  // ---------------------------------------------------------------- one reconcile

  /** After populating and writing: what the run's state and cluster are known to satisfy if
      the reconcile goes on. */
  ghost predicate Written(c: Codec, still: bool, s: State, env: Env, run: Run, v: nat, w: nat) {
    var name := s.provider.spec.configMapName;
    && StandsFor(c, s.provider.spec, run.cluster, s.store, v, w)
    && run.recon.configMapVersion == Some(run.cluster.configMaps[name].version)
    && VersionsBounded(run.cluster)
    && v <= env.keyValuesFetched < |s.store.keyValues| && w <= env.featureFlagsFetched < |s.store.featureFlags|
    && AtMost(NewKeyValueETags(run), NewFeatureFlagETags(run), s.provider.spec, v, w)
    && SentinelsHalfway(still, s, run, v)
    && TracksSelected(still, s.provider.spec, s.store, SeenAfter(run))
    && run.recon.generation <= s.provider.generation
    && (run.recon.generation == s.provider.generation ==>
          ETagsAtMost(run.recon, s.provider.spec, v, w)
          && TracksSelected(still, s.provider.spec, s.store, SeenBy(run.recon)))
    && (run.options.secretSettingPopulated ==> s.provider.spec.secret.Some?)
    && (run.shouldReconcile ==>
          run.options.configMapSettingPopulated && run.options.secretSettingPopulated == s.provider.spec.secret.Some?)
  }

  /** The state in which a reconcile stops with the given run. */
  function Stopped(s: State, run: Run): State {
    s.(cluster := run.cluster, recon := Some(run.recon))
  }

  lemma DeadlinesKeepInvariant(c: Codec, still: bool, s: State, recon: Recon, recon': Recon)
    requires s.recon == Some(recon) && Invariant(c, still, s) && SameButDeadlines(recon', recon)
    ensures Invariant(c, still, s.(recon := Some(recon')))
  {
    hide StandsFor, TracksSelected;
    var s' := s.(recon := Some(recon'));
    if Matches(s') {
      assert Matches(s) && NothingLost(c, still, s);
      var v: nat, w: nat :| StandsFor(c, s.provider.spec, s.cluster, s.store, v, w)
                         && AllAtMost(still, recon, s.provider.spec, s.store, v, w);
      assert AllAtMost(still, recon', s.provider.spec, s.store, v, w);
    }
  }

  lemma PopulateAndWriteFacts(c: Codec, still: bool, s: State, env: Env, start: Store, recon: Recon)
    returns (v: nat, w: nat)
    requires Prepared(c, still, s, env, start, recon)
    ensures var step := PopulateAndWrite(c, s, env, recon);
            && !step.Crash?
            && (step.Stop? ==> Invariant(c, still, Stopped(s, step.run)))
            && (step.Go? ==>
                  Written(c, still, s, env, step.run, v, w)
                  && Examined(still, s.provider.spec, s.store, env, step.run.shouldReconcile, recon, v, w))
            && (step.Go? ==> step.run.shouldReconcile == ShouldReconcile(s.provider, recon,
                  OptionalConfigMap(s.cluster, s.provider.spec.configMapName),
                    Live(s.cluster, NamesToCollect(s.provider.spec, recon))))
  {
    hide PopulateSettings, StandsFor, WriteConfigMap, Examined, Halfway, Written, Invariant;
    var existing := Live(s.cluster, NamesToCollect(s.provider.spec, recon));
    v, w := PopulateFacts(c, still, s, env, start, recon, existing);
    var name := s.provider.spec.configMapName;
    var populated :=
      PopulateSettings(c, s.provider, s.store, env, OptionalConfigMap(s.cluster, name), existing,
                       StartRun(recon, s.cluster));
    StoreGrows(c, still, s.(store := start), s.store);
    assert s.(store := start).(store := s.store) == s;
    DeadlinesKeepInvariant(c, still, s, recon, populated.run.recon);
    var kept := s.(recon := Some(populated.run.recon));
    if populated.Go? {
      if populated.run.options.configMapSettingPopulated {
        BoundedVersions(c, still, s.(store := start));
        WriteConfigMapFacts(c, still, s, env, populated.run, v, w);
        WrittenMapIsWritten(c, still, s, env, start, recon, populated.run, v, w);
        var step := WriteConfigMap(c, s.provider, env, populated.run);
        if step.Stop? {
          FailedWriteKeepsInvariant(c, still, s, kept, step.run);
        }
      } else {
        NotPopulatedIsNoFullLoad(c, still, s, env, populated.run, v, w);
        NotPopulatedIsWritten(c, still, s, env, start, recon, populated.run, existing, v, w);
      }
    }
  }

  lemma NotPopulatedIsNoFullLoad(c: Codec, still: bool, s: State, env: Env, run: Run, v: nat, w: nat)
    requires Halfway(c, still, s, env, run, v, w) && !run.options.configMapSettingPopulated
    ensures !run.shouldReconcile
  {
    hide FullData, StandsFor, SentinelsHalfway, TracksSelected;
  }

  lemma BoundedVersions(c: Codec, still: bool, s: State)
    requires Invariant(c, still, s)
    ensures VersionsBounded(s.cluster)
  {
    hide ReconInvariant;
  }

  lemma WrittenMapIsWritten(c: Codec, still: bool, s: State, env: Env, start: Store, recon: Recon, run: Run, v: nat,
                            w: nat)
    requires Prepared(c, still, s, env, start, recon) && Halfway(c, still, s, env, run, v, w)
    requires run.options.configMapSettingPopulated && SameButDeadlines(run.recon, recon) && run.cluster == s.cluster
    ensures var step := WriteConfigMap(c, s.provider, env, run); step.Go? ==> Written(c, still, s, env, step.run, v, w)
  {
    hide StandsFor, WriteConfigMap, SentinelsHalfway, TracksSelected, FullData;
    WriteConfigMapFacts(c, still, s, env, run, v, w);
    SameSentinels(still, s, run, v);
  }

  /** A write that fails leaves the ConfigMap alone, or else leaves a ConfigMap whose version
      is not the recorded one. */
  lemma FailedWriteKeepsInvariant(c: Codec, still: bool, s: State, kept: State, run: Run)
    requires kept == s.(recon := Some(run.recon)) && Invariant(c, still, kept)
    requires VersionsBounded(run.cluster) && run.cluster.nextVersion >= s.cluster.nextVersion
    requires run.cluster != s.cluster ==>
               && s.provider.spec.configMapName in run.cluster.configMaps
               && run.cluster.configMaps[s.provider.spec.configMapName].version == s.cluster.nextVersion
    ensures Invariant(c, still, Stopped(s, run))
  {
    hide StandsFor, TracksSelected;
    if run.cluster == s.cluster {
      assert Stopped(s, run) == kept;
    }
  }

  lemma NotPopulatedIsWritten(c: Codec, still: bool, s: State, env: Env, start: Store, recon: Recon, run: Run,
                              existing: map<string, Secret>, v: nat, w: nat)
    requires Prepared(c, still, s, env, start, recon) && Halfway(c, still, s, env, run, v, w)
             && !run.options.configMapSettingPopulated
    requires SameButDeadlines(run.recon, recon) && run.cluster == s.cluster
    requires !ShouldReconcile(s.provider, recon, OptionalConfigMap(s.cluster, s.provider.spec.configMapName), existing)
    ensures Written(c, still, s, env, run, v, w)
  {
    hide StandsFor, TracksSelected;
  }

  lemma SyncKeepsWritten(c: Codec, still: bool, s: State, env: Env, before: Run, after: Run, v: nat, w: nat)
    requires Written(c, still, s, env, before, v, w) && KeepsCore(before, after)
    ensures Written(c, still, s, env, after, v, w)
  {
    hide Reflects, FullData, TracksSelected, SameReferences;
    SameAreSelected(still, s.provider.spec, s.store, SeenAfter(before), SeenAfter(after));
    if before.recon.generation == s.provider.generation {
      SameAreSelected(still, s.provider.spec, s.store, SeenBy(before.recon), SeenBy(after.recon));
    }
  }

  /** Stopping, or crashing, after the ConfigMap is written keeps the invariant. */
  lemma StoppedAfterWriting(c: Codec, still: bool, s: State, env: Env, start: Store, recon: Recon, run: Run, v: nat,
                            w: nat)
    requires Prepared(c, still, s, env, start, recon) && Written(c, still, s, env, run, v, w)
    ensures Invariant(c, still, Stopped(s, run))
  {
    hide Reflects, FullData, TracksSelected;
    var s' := Stopped(s, run);
    assert StandsFor(c, s'.provider.spec, s'.cluster, s'.store, v, w);
    assert Matches(s') ==> AllAtMost(still, run.recon, s'.provider.spec, s'.store, v, w);
  }

  /** A finished reconcile leaves a matching state whose ETags the ConfigMap covers. */
  lemma FinishedKeepsInvariant(c: Codec, still: bool, s: State, env: Env, start: Store, recon: Recon, run: Run, v: nat,
                               w: nat)
    requires Prepared(c, still, s, env, start, recon) && Written(c, still, s, env, run, v, w)
    ensures var s' := s.(cluster := run.cluster, recon := Some(FinishedRecon(s.provider, run)));
            Invariant(c, still, s') && Matches(s')
  {
    hide Reflects, FullData, TracksSelected;
    var s' := s.(cluster := run.cluster, recon := Some(FinishedRecon(s.provider, run)));
    assert StandsFor(c, s'.provider.spec, s'.cluster, s'.store, v, w);
    assert AllAtMost(still, s'.recon.value, s'.provider.spec, s'.store, v, w);
  }

  /** One reconcile keeps the invariant, whatever fails on the way; one that is done leaves
      the recorded generation and ConfigMap version matching the cluster. */
  lemma ReconcileKeepsInvariant(c: Codec, still: bool, s: State, env: Env, store: Store)
    requires Inverse(c) && Invariant(c, still, s) && ValidEnv(env, s.store, store)
    requires still ==> SentinelsStill(env, store)
    ensures var r := Reconcile(c, s.(store := store), env);
            Invariant(c, still, r.state) && (r.outcome.Done? ==> Matches(r.state))
  {
    hide PopulateAndWrite, SyncSecrets, Prepare, Invariant, Written;
    var t := s.(store := store);
    StoreGrowsForReconcile(c, still, s, env, store);
    if ValidSpec(s.provider.spec) {
      PrepareKeepsInvariant(c, still, s, env);
      var (ready, recon) := Prepare(s.provider, s.cluster, s.recon, env);
      var prepared := t.(recon := recon);
      assert prepared.(store := s.store) == s.(recon := recon);
      StoreGrowsForReconcile(c, still, s.(recon := recon), env, store);
      if ready {
        assert Prepared(c, still, prepared, env, s.store, recon.value);
        var v, w := PopulateAndWriteFacts(c, still, prepared, env, s.store, recon.value);
        PopulateAndWriteIgnoresRecon(c, t, env, recon);
        var written := PopulateAndWrite(c, t, env, recon.value);
        if !written.Go? {
          PhaseDoesNotMatter(c, still, Stopped(prepared, written.run),
                             written.run.panicked && env.fault(PatchStatus) != Lost);
        } else {
          var existing := Live(t.cluster, NamesToCollect(t.provider.spec, recon.value));
          var synced := SyncSecrets(c, t.provider, env, existing, written.run);
          SyncSecretsKeepsCore(c, t.provider, env, existing, written.run);
          SyncKeepsWritten(c, still, prepared, env, written.run, synced.run, v, w);
          StoppedAfterWriting(c, still, prepared, env, s.store, recon.value, synced.run, v, w);
          PhaseDoesNotMatter(c, still, Stopped(prepared, synced.run), synced.Crash? && env.fault(PatchStatus) != Lost);
          FinishedKeepsInvariant(c, still, prepared, env, s.store, recon.value, synced.run, v, w);
        }
      }
    }
  }

  lemma PhaseDoesNotMatter(c: Codec, still: bool, s: State, running: bool)
    ensures Invariant(c, still, s.(running := running)) == Invariant(c, still, s)
  {
    var t := s.(running := running);
    if s.recon.Some? {
      assert Matches(t) == Matches(s) && NothingLost(c, still, t) == NothingLost(c, still, s);
    }
  }

  lemma StoreGrowsForReconcile(c: Codec, still: bool, s: State, env: Env, store: Store)
    requires Invariant(c, still, s) && ValidEnv(env, s.store, store)
    ensures Invariant(c, still, s.(store := store))
  {
    StoreGrows(c, still, s, store);
  }

  lemma PopulateAndWriteIgnoresRecon(c: Codec, s: State, env: Env, recon: Option<Recon>)
    requires recon.Some? && ValidSpec(s.provider.spec)
    requires env.keyValuesFetched < |s.store.keyValues| && env.featureFlagsFetched < |s.store.featureFlags|
    ensures PopulateAndWrite(c, s.(recon := recon), env, recon.value) == PopulateAndWrite(c, s, env, recon.value)
  {
    hide PopulateSettings, WriteConfigMap;
  }

  // ---------------------------------------------------------------- runs

  lemma StartsWithInvariant(c: Codec, still: bool, s: State)
    requires Starts(s)
    ensures Invariant(c, still, s)
  {
  }

  /** No reconcile sees its sentinels move between the fetch and their reading. */
  ghost predicate AllStill(events: seq<Event>) {
    forall e :: e in events && e.Reconciles? ==> SentinelsStill(e.env, e.store)
  }

  /** The invariant holds in every reachable state; with the sentinels, if they have been still. */
  lemma {:induction false} ReachableIsInvariant(c: Codec, still: bool, start: State, events: seq<Event>, s: State)
    requires Inverse(c) && Reaches(c, start, events, s) && (still ==> AllStill(events))
    ensures Invariant(c, still, s)
    decreases events
  {
    hide Invariant, Reconcile;
    if events == [] {
      StartsWithInvariant(c, still, s);
    } else {
      var earlier, last := events[..|events| - 1], events[|events| - 1];
      var previous :| Reaches(c, start, earlier, previous) && Allowed(previous, last) && s == Next(c, previous, last);
      assert forall e :: e in earlier ==> e in events;
      ReachableIsInvariant(c, still, start, earlier, previous);
      if last.Reconciles? {
        ReconcileKeepsInvariant(c, still, previous, last.env, last.store);
      } else {
        EditKeepsInvariant(c, still, previous, last);
      }
    }
  }

  /** Checks of the recorded ETags against the current store would find no change. */
  ghost predicate ChecksFindNothing(s: State)
    requires s.recon.Some? && s.store.keyValues != [] && s.store.featureFlags != []
  {
    && !PagesChanged(s.recon.value.keyValueETags, |s.store.keyValues| - 1)
    && (s.provider.spec.featureFlag.Some? ==> !PagesChanged(s.recon.value.featureFlagETags, |s.store.featureFlags| - 1))
  }

  /** No lost update: in every reachable state whose recorded generation and ConfigMap version
      match the cluster, the ConfigMap stands for a full load of store versions that are at
      least those of the recorded ETags. Hence, if checks of the recorded ETags would find no
      change, the ConfigMap stands for a full load of the current store; any change not yet
      written is still seen. */
  lemma NoUpdateIsLost(c: Codec, start: State, events: seq<Event>, s: State)
    requires Inverse(c) && Reaches(c, start, events, s) && Matches(s)
    ensures NothingLost(c, false, s)
    ensures s.store.keyValues != [] && s.store.featureFlags != []
    ensures ChecksFindNothing(s) ==>
              StandsFor(c, s.provider.spec, s.cluster, s.store, |s.store.keyValues| - 1, |s.store.featureFlags| - 1)
  {
    hide Reaches, Reflects, Typed;
    ReachableIsInvariant(c, false, start, events, s);
    var v: nat, w: nat :| StandsFor(c, s.provider.spec, s.cluster, s.store, v, w)
                       && AllAtMost(false, s.recon.value, s.provider.spec, s.store, v, w);
  }

  /** No reference is lost to a check of the page ETags: in every reachable state of the present
      spec, the tracked Secrets and references are those of a store version at least that of the
      recorded ETags. Hence, if the check would find no change, they are the current ones. */
  lemma NoReferenceIsLost(c: Codec, start: State, events: seq<Event>, s: State)
    requires Inverse(c) && Reaches(c, start, events, s) && s.recon.Some? && s.provider.spec.secret.Some?
    requires s.recon.value.generation == s.provider.generation
    ensures s.store.keyValues != [] && s.recon.value.keyValueETags.Some?
    ensures exists u: nat ::
              s.recon.value.keyValueETags.value <= u && SelectedAt(s.provider.spec, s.store, s.recon.value.secrets, u)
    ensures !PagesChanged(s.recon.value.keyValueETags, |s.store.keyValues| - 1) ==>
              SelectedAt(s.provider.spec, s.store, s.recon.value.secrets, |s.store.keyValues| - 1)
  {
    hide Reaches, SelectedMetadata, SameReferences, NothingLost;
    ReachableIsInvariant(c, false, start, events, s);
    var u: nat :| SeenAt(false, s.provider.spec, s.store, SeenBy(s.recon.value), u);
  }

  /** No announced reference is lost: with monitored sentinels that have been still in every full
      load, whenever a check of the recorded sentinels would find no change, the tracked Secrets
      and references are those of a store version at which the sentinels were already the
      current ones. */
  lemma NoAnnouncedReferenceIsLost(c: Codec, start: State, events: seq<Event>, s: State)
    requires Inverse(c) && Reaches(c, start, events, s) && s.recon.Some? && AllStill(events)
    requires s.recon.value.generation == s.provider.generation && s.provider.spec.secret.Some?
    requires KeyValueRefreshEnabled(s.provider.spec) && s.provider.spec.monitoring
    ensures s.store.keyValues != []
    ensures s.recon.value.sentinelETags == Some(SentinelAt(s.store, |s.store.keyValues| - 1)) ==>
              exists u: nat :: SelectedAt(s.provider.spec, s.store, s.recon.value.secrets, u)
                               && SentinelAt(s.store, u) == SentinelAt(s.store, |s.store.keyValues| - 1)
  {
    hide Reaches, SelectedMetadata, SameReferences, NothingLost;
    ReachableIsInvariant(c, true, start, events, s);
    var u: nat :| SeenAt(true, s.provider.spec, s.store, SeenBy(s.recon.value), u);
    assert SentinelAt(s.store, u) <= SentinelAt(s.store, |s.store.keyValues| - 1);
  }

  /** No announced update is lost: with monitored sentinels that have been still in every full
      load, whenever a check of the recorded sentinels would find no change, the ConfigMap
      stands for key-values at which the sentinels were already the current ones, and so do the
      tracked Secrets and references. */
  lemma NoAnnouncedUpdateIsLost(c: Codec, start: State, events: seq<Event>, s: State)
    requires Inverse(c) && Reaches(c, start, events, s) && Matches(s) && AllStill(events)
    requires KeyValueRefreshEnabled(s.provider.spec) && s.provider.spec.monitoring
    ensures s.store.keyValues != []
    ensures s.recon.value.sentinelETags == Some(SentinelAt(s.store, |s.store.keyValues| - 1)) ==>
              exists v: nat, w: nat :: StandsFor(c, s.provider.spec, s.cluster, s.store, v, w)
                                    && SentinelAt(s.store, v) == SentinelAt(s.store, |s.store.keyValues| - 1)
    ensures s.recon.value.sentinelETags == Some(SentinelAt(s.store, |s.store.keyValues| - 1))
            && s.provider.spec.secret.Some? ==>
              exists u: nat :: SelectedAt(s.provider.spec, s.store, s.recon.value.secrets, u)
                               && SentinelAt(s.store, u) == SentinelAt(s.store, |s.store.keyValues| - 1)
  {
    hide Reaches, Reflects, Typed, SelectedAt;
    if s.provider.spec.secret.Some? {
      NoAnnouncedReferenceIsLost(c, start, events, s);
    }
    ReachableIsInvariant(c, true, start, events, s);
    var v: nat, w: nat :| StandsFor(c, s.provider.spec, s.cluster, s.store, v, w)
                       && AllAtMost(true, s.recon.value, s.provider.spec, s.store, v, w);
    assert SentinelAt(s.store, v) <= SentinelAt(s.store, |s.store.keyValues| - 1);
  }
}
