/** There are states at which a full load is done although it loses an update or leaves drift
    behind. */
module Examples {
  import opened Clock
  import opened Wrappers
  import opened TypedSetting
  import opened ReconcileTypes
  import opened Reconciler
  import opened NoLostUpdate
  import opened Convergence
  import opened Deadlines
  import opened Repair
  import opened Stopping
  import opened StoppedLoads
  import opened Failures
  import opened RecordedVersions
  import opened Processor
  import opened SecretSync
  import opened Sentinels
  import Tree
  import SettingLoader

  // ---------------------------------------------------------------- a first load

  /** Every call of the first reconcile of a provider without Secrets and flags works. */
  ghost predicate FirstLoad(s: State, env: Env, store: Store)
    requires env.keyValuesFetched < |store.keyValues|
  {
    && Starts(s) && ValidSpec(s.provider.spec) && s.provider.spec.secret.None? && s.provider.spec.featureFlag.None?
    && ConfigMapOwned(s.cluster, s.provider)
    && store.keyValues[env.keyValuesFetched].references == map[] && store.keyValues[env.keyValuesFetched].buildable
    && forall call :: env.fault(call) == Fine
  }

  lemma FirstLoadIsReady(s: State, env: Env, store: Store)
    requires env.keyValuesFetched < |store.keyValues| && FirstLoad(s, env, store)
    ensures Prepare(s.provider, s.cluster, s.recon, env).0 && !InStep(s)
  {
  }

  lemma FirstLoadIsDone(c: Codec, s: State, env: Env, store: Store)
    requires Inverse(c) && ValidEnv(env, s.store, store) && FirstLoad(s, env, store)
    ensures Invariant(c, false, s) && !InStep(s) && Reconcile(c, s.(store := store), env).outcome.Done?
  {
    hide Reconcile, Prepare, Invariant, InStep, FullData, ShouldCreateOrUpdateConfigMap, LoadedSecrets;
    StartsWithInvariant(c, false, s);
    FirstLoadIsReady(s, env, store);
    assert LoadEnding(s.provider.spec, store.keyValues[env.keyValuesFetched], Fine, FullLoad) == Through;
    FullLoadIsDoneExactly(c, s, env, store);
  }

  /** The keys in some order. */
  ghost function SomeOrder(keys: set<string>): (order: seq<string>)
    ensures Lists(order, keys)
  {
    if keys == {} then []
    else
      var k :| k in keys;
      var rest := SomeOrder(keys - {k});
      assert forall i :: 0 <= i < |rest| ==> rest[i] in rest;
      [k] + rest
  }

  /** One key-value, after so many changes of the sentinels. */
  function Version(text: string, sentinel: nat): Content {
    Content(KeyValues(map["key" := text], map["key" := Tree.Text(text)]), map[], true, sentinel)
  }

  /** What a reconcile meets that fetches the given version of key-values, checks and fetches
      the given one of flags, and reads its sentinels at the given one. */
  ghost function Meeting(fault: Call -> Fault, keyValues: nat, featureFlags: nat, sentinelRead: nat): Env {
    Env(1, 1, fault, 0, keyValues, featureFlags, featureFlags, 0, sentinelRead, _ => None, _ => ("", ""), _ => map[],
        keys => SomeOrder(keys))
  }

  lemma MeetingIsValid(fault: Call -> Fault, keyValues: nat, featureFlags: nat, sentinelRead: nat, start: Store,
                       store: Store)
    requires |start.keyValues| == 1 == |start.featureFlags| && start.keyValues <= store.keyValues
    requires start.featureFlags <= store.featureFlags && SentinelsAdvance(store.keyValues)
    requires keyValues <= sentinelRead < |store.keyValues| && featureFlags < |store.featureFlags|
    ensures ValidEnv(Meeting(fault, keyValues, featureFlags, sentinelRead), start, store)
  {
  }

  const SELF := OwnerReference("v1", "AzureAppConfigurationProvider", "provider", "1")

  // ---------------------------------------------------------------- a missed update

  lemma AnnouncedUpdate() returns (s: State, env: Env, store: Store)
    ensures ValidEnv(env, s.store, store) && FirstLoad(s, env, store)
    ensures KeyValueRefreshEnabled(s.provider.spec) && s.provider.spec.monitoring && s.provider.spec.configMapData.None?
    ensures env.sentinelRead == |store.keyValues| - 1 && !SentinelsStill(env, store)
    ensures store.keyValues[env.keyValuesFetched].settings.fields != map[]
    ensures store.keyValues[env.sentinelRead].settings.fields != map[]
    ensures store.keyValues[env.keyValuesFetched].settings.plain != store.keyValues[env.sentinelRead].settings.plain
  {
    hide ValidEnv;
    var spec := Spec("config", None, Some(Refresh(true, 30 * SECOND)), true, None, None);
    var before := Store([Version("old", 0)], [map[]]);
    store := Store([Version("old", 0), Version("new", 1)], [map[]]);
    s := State(Provider(SELF, 1, map[], spec), Cluster(map[], map[], 0), before, None, false);
    env := Meeting(_ => Fine, 0, 0, 1);
    MeetingIsValid(_ => Fine, 0, 0, 1, before, store);
    assert "key" in Version("old", 0).settings.fields && "key" in Version("new", 1).settings.fields;
    assert Version("old", 0).settings.plain["key"] != Version("new", 1).settings.plain["key"];
  }

  /** A first load that is done records the sentinels as they are now, and leaves a ConfigMap
      that does not stand for the key-values of now. */
  ghost predicate MissesUpdate(c: Codec, s: State, env: Env, store: Store) {
    && Invariant(c, false, s) && ValidEnv(env, s.store, store) && !InStep(s)
    && KeyValueRefreshEnabled(s.provider.spec) && s.provider.spec.monitoring && !SentinelsStill(env, store)
    && var r, last := Reconcile(c, s.(store := store), env), |store.keyValues| - 1;
       && r.outcome.Done? && r.state.recon.Some?
       && r.state.recon.value.sentinelETags == Some(SentinelAt(store, last))
       && !StandsFor(c, s.provider.spec, r.state.cluster, store, last, env.featureFlagsFetched)
  }

  /** A sentinel moves while the first load is under way: what it announces is missed. */
  lemma AnnouncedUpdateIsMissed(c: Codec)
    requires Inverse(c)
    ensures exists s: State, env: Env, store: Store :: MissesUpdate(c, s, env, store)
  {
    hide Reconcile, Invariant, InStep, StandsFor, FirstLoad, SentinelsStill;
    var s, env, store := AnnouncedUpdate();
    FirstLoadIsDone(c, s, env, store);
    NoFlags(s, env, store);
    MovedSentinelLosesUpdate(c, s, env, store);
    assert MissesUpdate(c, s, env, store);
  }

  lemma NoFlags(s: State, env: Env, store: Store)
    requires env.keyValuesFetched < |store.keyValues| && FirstLoad(s, env, store)
    ensures s.provider.spec.featureFlag.None?
  {
  }

  // ---------------------------------------------------------------- drift that is left

  lemma ExtraKey(c: Codec) returns (s: State, env: Env, store: Store)
    ensures ValidEnv(env, s.store, store) && FirstLoad(s, env, store) && IsDocument(s.provider.spec.configMapData)
    ensures var latest := FullData(c, s.provider.spec, store, env.keyValuesFetched, env.featureFlagsFetched);
            && s.provider.spec.configMapData.value.key in latest && "extra" !in latest
            && DataOf(s.cluster, s.provider.spec.configMapName) == Some(latest["extra" := "x"])
  {
    hide ValidEnv;
    var spec := Spec("config", Some(DataOptions(JsonType, "doc", None)), None, false, None, None);
    store := Store([Version("old", 0)], [map[]]);
    env := Meeting(_ => Fine, 0, 0, 0);
    MeetingIsValid(_ => Fine, 0, 0, 0, store, store);
    assert "key" in Version("old", 0).settings.fields;
    var latest := FullData(c, spec, store, 0, 0);
    var cluster := Cluster(map["config" := ConfigMap([SELF], latest["extra" := "x"], 0)], map[], 1);
    s := State(Provider(SELF, 1, map[], spec), cluster, store, None, false);
  }

  /** A full load that is done leaves data that is not that of the load. */
  ghost predicate LeavesDrift(c: Codec, s: State, env: Env, store: Store) {
    && Invariant(c, false, s) && ValidEnv(env, s.store, store) && !InStep(s)
    && var r, spec := Reconcile(c, s.(store := store), env), s.provider.spec;
       && r.outcome.Done?
       && DataOf(r.state.cluster, spec.configMapName) == DataOf(s.cluster, spec.configMapName)
       && DataOf(s.cluster, spec.configMapName)
          != Some(FullData(c, spec, store, env.keyValuesFetched, env.featureFlagsFetched))
  }

  /** A ConfigMap has an extra key beside its document when the controller restarts: the full
      load that follows is done and leaves it there. */
  lemma ExtraKeyIsLeft(c: Codec)
    requires Inverse(c)
    ensures exists s: State, env: Env, store: Store :: LeavesDrift(c, s, env, store)
  {
    hide Reconcile, Invariant, InStep, FullData, FirstLoad;
    var s, env, store := ExtraKey(c);
    FirstLoadIsDone(c, s, env, store);
    OtherKeysAreNotRepaired(c, s, env, store, "extra", "x");
    assert LeavesDrift(c, s, env, store);
  }

  // ---------------------------------------------------------------- a lost Secret

  const TARGET := SettingLoader.TargetSecret(SettingLoader.TLS,
                                             map["new" := SettingLoader.KeyVaultSecretMetadata("", "", "")])

  /** The ConfigMap has been edited by others since version 0, all else is in step, the store now
      selects a new Secret, and its name cannot be read. */
  ghost predicate Unreadable(s: State, env: Env, store: Store)
    requires env.keyValuesFetched < |store.keyValues|
  {
    var spec, content := s.provider.spec, store.keyValues[env.keyValuesFetched];
    && Starts(s.(recon := None)) && ValidSpec(spec) && !AnyEnabled(spec) && spec.featureFlag.None?
    && spec.secret == Some(SecretSpec("target", None, None)) && spec.configMapName == "config"
    && s.cluster.configMaps.Keys == {"config"} && s.cluster.configMaps["config"].version == 1
    && Owned(s.cluster.configMaps["config"].owners, s.provider)
    && s.cluster.secrets.Keys == {"target"} && Owned(s.cluster.secrets["target"].owners, s.provider)
    && s.store.keyValues[0].references == map[]
    && content.references == map["new" := TARGET] && content.buildable
    && (forall call :: env.fault(call) == if call == GetNewSecret("new") then Lost else Fine)
    && s.recon.Some?
    && var tracked := Tracked(SettingLoader.Opaque, map[], Some(s.cluster.secrets["target"].version));
       s.recon.value == INITIAL.(generation := s.provider.generation, annotations := s.provider.annotations,
                                 configMapVersion := Some(0), keyValueETags := Some(0), hasClientManager := true,
                                 secrets := map["target" := tracked])
  }

  lemma UnreadableName() returns (s: State, env: Env, store: Store)
    ensures ValidEnv(env, s.store, store) && Unreadable(s, env, store)
  {
    hide ValidEnv;
    var spec := Spec("config", None, None, false, None, Some(SecretSpec("target", None, None)));
    var changed := Version("old", 0).(references := map["new" := TARGET]);
    var before := Store([Version("old", 0)], [map[]]);
    store := Store([Version("old", 0), changed], [map[]]);
    var secret := Secret([SELF], SettingLoader.Opaque, map[], 2);
    var cluster := Cluster(map["config" := ConfigMap([SELF], map["key" := "edited"], 1)], map["target" := secret], 3);
    var recon := INITIAL.(generation := 1, configMapVersion := Some(0), keyValueETags := Some(0),
                          hasClientManager := true,
                          secrets := map["target" := Tracked(SettingLoader.Opaque, map[], Some(2))]);
    s := State(Provider(SELF, 1, map[], spec), cluster, before, Some(recon), false);
    var fault := call => if call == GetNewSecret("new") then Lost else Fine;
    env := Meeting(fault, 1, 0, 1);
    MeetingIsValid(fault, 1, 0, 1, before, store);
  }

  lemma UnreadableIsInvariant(c: Codec, s: State, env: Env, store: Store)
    requires env.keyValuesFetched < |store.keyValues| && Unreadable(s, env, store)
    ensures Invariant(c, false, s) && Recorded(s)
  {
    hide NothingLost;
    var seen := SeenBy(s.recon.value);
    assert s.cluster.secrets["target"].version < s.cluster.nextVersion by { assert "target" in s.cluster.secrets; }
    assert s.cluster.configMaps["config"].version < s.cluster.nextVersion by {
      assert "config" in s.cluster.configMaps;
    }
    assert SelectedMetadata(s.provider.spec, map[]) == map["target" := Tracked(SettingLoader.Opaque, map[], None)];
    assert SeenAt(false, s.provider.spec, s.store, seen, 0);
    assert !Matches(s);
  }

  lemma UnreadableDrifts(s: State, env: Env, store: Store)
    requires env.keyValuesFetched < |store.keyValues| && Unreadable(s, env, store)
    ensures ConfigMapAloneDrifted(s) && Prepare(s.provider, s.cluster, s.recon, env).0
  {
    assert NamesToCollect(s.provider.spec, s.recon.value) == {"target"};
    var existing := Existing(s, s.recon.value);
    assert existing == map["target" := s.cluster.secrets["target"]];
  }

  lemma UnreadableGoesThrough(c: Codec, s: State, env: Env, store: Store)
    requires ValidEnv(env, s.store, store) && Unreadable(s, env, store)
    ensures ConfigMapGoesThrough(c, s.(store := store), env)
    ensures "new" in store.keyValues[env.keyValuesFetched].references && "new" !in s.recon.value.secrets
    ensures "new" !in s.cluster.secrets && !Reads(env, GetNewSecret("new"), SecretOwners(s.cluster, "new"), s.provider)
  {
    hide FullData, ShouldCreateOrUpdateConfigMap;
    assert "new" !in s.cluster.secrets.Keys;
  }

  /** A reconcile fails, and in no later run of reconciles and store changes is n created, although
      the version fetched selects it. */
  ghost predicate NeverCreated(c: Codec, s: State, env: Env, store: Store, n: string) {
    && Invariant(c, false, s) && ValidEnv(env, s.store, store)
    && n in store.keyValues[env.keyValuesFetched].references
    && var r := Reconcile(c, s.(store := store), env);
       && r.outcome.Failed?
       && forall events: seq<Event>, later: State ::
            Leads(c, r.state, events, later) && (forall e :: e in events ==> e.Reconciles? || e.EditsStore?)
            ==> n !in later.cluster.secrets
  }

  /** A newly selected Secret is never created. */
  lemma SecretIsNeverCreated(c: Codec)
    requires Inverse(c)
    ensures exists s: State, env: Env, store: Store :: NeverCreated(c, s, env, store, "new")
  {
    hide Reconcile, Prepare, Invariant, InStep, Recorded, ConfigMapGoesThrough, ConfigMapAloneDrifted, Reads, Leads;
    var s, env, store := UnreadableName();
    UnreadableIsInvariant(c, s, env, store);
    UnreadableDrifts(s, env, store);
    UnreadableGoesThrough(c, s, env, store);
    var r := Reconcile(c, s.(store := store), env);
    forall events: seq<Event>, later: State
      ensures r.outcome.Failed?
      ensures Leads(c, r.state, events, later) && (forall e :: e in events ==> e.Reconciles? || e.EditsStore?)
              ==> "new" !in later.cluster.secrets
    {
      NewSecretIsNeverCreated(c, s, env, store, "new", events, later);
    }
    assert NeverCreated(c, s, env, store, "new") by { NewSecretIsNeverCreated(c, s, env, store, "new", [], r.state); }
  }

  // ---------------------------------------------------------------- delayed flags

  /** Flags have changed, both refreshes are due, all is at rest, and the key-values cannot be
      checked. */
  ghost predicate Unchecked(c: Codec, s: State, env: Env, store: Store) {
    && ValidEnv(env, s.store, store) && ValidSpec(s.provider.spec) && env.featureFlagsChecked != 0
    && (forall call :: env.fault(call) == if call == CheckKeyValueETags then Lost else Fine)
    && Starts(s.(recon := None)) && s.recon.Some?
    && var spec, recon := s.provider.spec, s.recon.value;
       && KeyValueRefreshEnabled(spec) && FeatureFlagRefreshEnabled(spec) && !spec.monitoring && spec.secret.None?
       && spec.configMapName in s.cluster.configMaps
       && var live := s.cluster.configMaps[spec.configMapName];
          && Owned(live.owners, s.provider) && live.data == FullData(c, spec, s.store, 0, 0)
          && recon == INITIAL.(generation := s.provider.generation, annotations := s.provider.annotations,
                               configMapVersion := Some(live.version), keyValueETags := Some(0),
                               featureFlagETags := Some(0), hasClientManager := true)
  }

  lemma ChangedFlags() returns (before: Store, env: Env, store: Store)
    ensures ValidEnv(env, before, store) && SentinelsAdvance(before.keyValues) && env.featureFlagsChecked != 0
    ensures forall call :: env.fault(call) == if call == CheckKeyValueETags then Lost else Fine
  {
    hide ValidEnv;
    before := Store([Version("old", 0)], [map[]]);
    store := before.(featureFlags := before.featureFlags + [map["flag" := Tree.Text("on")]]);
    var fault := call => if call == CheckKeyValueETags then Lost else Fine;
    env := Meeting(fault, 0, 1, 0);
    MeetingIsValid(fault, 0, 1, 0, before, store);
  }

  lemma UncheckedKeyValues(c: Codec) returns (s: State, env: Env, store: Store)
    ensures Unchecked(c, s, env, store)
  {
    hide FullData;
    var before;
    before, env, store := ChangedFlags();
    var every := Some(Refresh(true, 30 * SECOND));
    var spec := Spec("config", Some(DataOptions(JsonType, "doc", None)), every, false, Some(every), None);
    var cluster := Cluster(map["config" := ConfigMap([SELF], FullData(c, spec, before, 0, 0), 0)], map[], 1);
    var recon := INITIAL.(generation := 1, configMapVersion := Some(0), keyValueETags := Some(0),
                          featureFlagETags := Some(0), hasClientManager := true);
    s := State(Provider(SELF, 1, map[], spec), cluster, before, Some(recon), false);
  }

  lemma UncheckedIsAtRest(c: Codec, s: State, env: Env, store: Store)
    requires Unchecked(c, s, env, store)
    ensures Invariant(c, false, s) && AtRest(s) && ReadsWork(s, env) && FlagsThenFailure(s, env)
  {
    hide FullData;
    assert StandsFor(c, s.provider.spec, s.cluster, s.store, 0, 0);
    assert AllAtMost(false, s.recon.value, s.provider.spec, s.store, 0, 0);
    assert s.cluster.configMaps[s.provider.spec.configMapName].version < s.cluster.nextVersion;
    forall kind
      ensures DeadlineOf(s.recon.value, kind) == 0
    {
    }
  }

  /** A reconcile fails that has seen changed flags, and puts the next look at them off by an
      interval, although the recorded ETags stay as they were. */
  ghost predicate PutsFlagsOff(c: Codec, s: State, env: Env, store: Store) {
    && Invariant(c, false, s) && ValidEnv(env, s.store, store) && s.recon.Some?
    && IsEnabled(s.provider.spec, FeatureFlag) && PagesChanged(s.recon.value.featureFlagETags, env.featureFlagsChecked)
    && var r := Reconcile(c, s.(store := store), env);
       && r.outcome.Failed? && r.state.cluster == s.cluster && r.state.recon.Some?
       && r.state.recon.value.featureFlagETags == s.recon.value.featureFlagETags
       && DeadlineOf(r.state.recon.value, FeatureFlag) == env.now + IntervalOf(s.provider.spec, FeatureFlag)
  }

  lemma FlagsArePutOff(c: Codec)
    requires Inverse(c)
    ensures exists s: State, env: Env, store: Store :: PutsFlagsOff(c, s, env, store)
  {
    hide Reconcile, Invariant, AtRest, ReadsWork;
    var s, env, store := UncheckedKeyValues(c);
    UncheckedIsAtRest(c, s, env, store);
    FailureDelaysFetchedFlags(c, s, env, store);
    assert PutsFlagsOff(c, s, env, store);
  }
}
