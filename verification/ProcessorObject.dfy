/** The processor as the object it is (internal/controller/processor.go): its methods update the
    processor and the reconciliation state field by field, and are proved against the functions
    of module Processor. Metadata of Secrets is held by reference, so that the settings of a
    secret refresh share it with the state. */
module ProcessorObject {
  import opened Clock
  import opened Wrappers
  import opened TypedSetting
  import opened ReconcileTypes
  import opened Processor
  import opened Sets
  import Deadlines
  import SettingLoader

  /** A map of Secret metadata, written through every reference to it. */
  class SecretMetadata {
    var entries: map<string, Tracked>

    constructor (entries: map<string, Tracked>)
      ensures this.entries == entries
    {
      this.entries := entries;
    }
  }

  class ReconciliationState {
    var generation: int
    var annotations: map<string, string>
    var configMapResourceVersion: Option<nat>
    var sentinelETags: Option<nat>
    var keyValueETags: Option<nat>
    var featureFlagETags: Option<nat>
    var existingK8sSecrets: SecretMetadata
    var nextKeyValueRefresh: Time
    var nextSecretReferenceRefresh: Time
    var nextFeatureFlagRefresh: Time
    var hasClientManager: bool

    function View(): Recon
      reads this, existingK8sSecrets
    {
      Recon(generation, annotations, configMapResourceVersion, sentinelETags, keyValueETags, featureFlagETags,
            existingK8sSecrets.entries, nextKeyValueRefresh, nextSecretReferenceRefresh, nextFeatureFlagRefresh,
              hasClientManager)
    }

    constructor ()
      ensures View() == INITIAL && fresh(existingK8sSecrets)
    {
      generation := -1;
      annotations := map[];
      configMapResourceVersion, sentinelETags, keyValueETags, featureFlagETags := None, None, None, None;
      existingK8sSecrets := new SecretMetadata(map[]);
      nextKeyValueRefresh, nextSecretReferenceRefresh, nextFeatureFlagRefresh := 0, 0, 0;
      hasClientManager := false;
    }
  }

  /** The cluster, and a record of the calls of the reconcile. */
  class ClusterClient {
    var cluster: Cluster
    var running: bool
    ghost var trace: seq<Call>
  }

  /** A live Secret as read from the cluster; its data is a map that can be written in place. */
  class SecretObject {
    const owners: seq<OwnerReference>
    const kind: SettingLoader.SecretType
    const version: nat
    var data: Data

    constructor (owners: seq<OwnerReference>, kind: SettingLoader.SecretType, data: Data, version: nat)
      ensures this.owners == owners && this.kind == kind && this.data == data && this.version == version
    {
      this.owners, this.kind, this.data, this.version := owners, kind, data, version;
    }

    function View(): Secret
      reads this
    {
      Secret(owners, kind, data, version)
    }

    method DeepCopy() returns (copy: SecretObject)
      ensures fresh(copy) && copy.View() == View()
    {
      copy := new SecretObject(owners, kind, data, version);
    }
  }

  function Values(objects: map<string, SecretObject>): map<string, Secret>
    reads objects.Values
  {
    map n | n in objects :: objects[n].View()
  }

  /** The references that name no version, Secret by Secret, filled in one at a time. */
  method CollectUnversioned(tracked: map<string, Tracked>) returns (toResolve: map<string, Tracked>)
    ensures toResolve == ToResolve(tracked)
  {
    toResolve := map[];
    var names := tracked.Keys;
    while names != {}
      invariant names <= tracked.Keys
      invariant forall n :: n in toResolve <==> n in tracked.Keys - names && Unversioned(tracked[n]) != map[]
      invariant forall n ::
                  n in toResolve ==> toResolve[n] == tracked[n].(references := Unversioned(tracked[n]), version := None)
      decreases names
    {
      var n :| n in names;
      var found := map[];
      var keys := tracked[n].references.Keys;
      while keys != {}
        invariant keys <= tracked[n].references.Keys
        invariant found == map k | k in Unversioned(tracked[n]) && k !in keys :: tracked[n].references[k]
        decreases keys
      {
        var k :| k in keys;
        if tracked[n].references[k].secretVersion == "" {
          found := found[k := tracked[n].references[k]];
        }
        keys := keys - {k};
      }
      assert found == Unversioned(tracked[n]);
      if found != map[] {
        toResolve := toResolve[n := tracked[n].(references := found, version := None)];
      }
      names := names - {n};
    }
  }

  /** Copies of the live Secrets, each its own object. */
  method CopySecrets(existing: map<string, SecretObject>) returns (copies: map<string, SecretObject>)
    ensures copies.Keys == existing.Keys && AreSeparate(copies)
    ensures fresh(copies.Values)
    ensures forall n :: n in copies ==> copies[n].kind == existing[n].kind && copies[n].data == existing[n].data
  {
    copies := map[];
    var names := existing.Keys;
    while names != {}
      invariant names <= existing.Keys && copies.Keys == existing.Keys - names && AreSeparate(copies)
      invariant forall n :: n in copies ==>
                  fresh(copies[n]) && copies[n].kind == existing[n].kind && copies[n].data == existing[n].data
      decreases names
    {
      var n :| n in names;
      var copy := existing[n].DeepCopy();
      copies := copies[n := copy];
      names := names - {n};
    }
  }

  ghost predicate AreSeparate(objects: map<string, SecretObject>) {
    forall m, n :: m in objects && n in objects && m != n ==> objects[m] != objects[n]
  }

  /** Lays the resolved entries over the Secrets that exist, in place. */
  method OverlayInPlace(secrets: map<string, SecretObject>, resolved: map<string, SecretContent>)
    requires AreSeparate(secrets)
    modifies secrets.Values
    ensures forall n :: n in secrets ==>
              secrets[n].data == if n in resolved then old(secrets[n].data) + resolved[n].data else old(secrets[n].data)
  {
    var names := resolved.Keys;
    while names != {}
      invariant names <= resolved.Keys
      invariant forall n :: n in secrets ==>
                  secrets[n].data == if n in resolved && n !in names then old(secrets[n].data) + resolved[n].data
                    else old(secrets[n].data)
      decreases names
    {
      var n :| n in names;
      if n in secrets {
        OverlayEntries(secrets[n], resolved[n].data);
      }
      names := names - {n};
    }
  }

  method OverlayEntries(secret: SecretObject, entries: Data)
    modifies secret`data
    ensures secret.data == old(secret.data) + entries
  {
    var keys := entries.Keys;
    while keys != {}
      invariant keys <= entries.Keys
      invariant secret.data == old(secret.data) + map k | k in entries && k !in keys :: entries[k]
      decreases keys
    {
      var k :| k in keys;
      secret.data := secret.data[k := entries[k]];
      keys := keys - {k};
    }
    assert (map k | k in entries && k !in keys :: entries[k]) == entries;
  }

  /** Copies the live Secrets, then lays the resolved entries over the copies; the live Secrets
      are not in the frame, so they stay as they are. */
  method OverlaySecrets(existing: map<string, SecretObject>, resolved: map<string, SecretContent>)
    returns (secrets: map<string, SecretContent>)
    ensures secrets == Overlaid(Values(existing), resolved)
  {
    hide Values, Overlaid;
    ghost var live := Values(existing);
    var copies := CopySecrets(existing);
    CopiedValues(existing, copies);
    OverlayInPlace(copies, resolved);
    secrets := Contents(copies);
    OverlaidAt(live, resolved, secrets);
  }

  lemma CopiedValues(existing: map<string, SecretObject>, copies: map<string, SecretObject>)
    requires copies.Keys == existing.Keys
    requires forall n :: n in copies ==> copies[n].kind == existing[n].kind && copies[n].data == existing[n].data
    ensures Values(existing).Keys == copies.Keys
    ensures forall n ::
              n in copies ==> copies[n].kind == Values(existing)[n].kind && copies[n].data == Values(existing)[n].data
  {
  }

  function Contents(objects: map<string, SecretObject>): map<string, SecretContent>
    reads objects.Values
  {
    map n | n in objects :: SecretContent(objects[n].kind, objects[n].data)
  }

  lemma OverlaidAt(live: map<string, Secret>, resolved: map<string, SecretContent>, secrets: map<string, SecretContent>)
    requires secrets.Keys == live.Keys
    requires forall n :: n in secrets ==>
               && secrets[n].kind == live[n].kind
               && secrets[n].data == if n in resolved then live[n].data + resolved[n].data else live[n].data
    ensures secrets == Overlaid(live, resolved)
  {
  }

  /** Whether annotations have changed: other sizes, or a new annotation that is not the old one. */
  method AnnotationChanged(before: map<string, string>, after: map<string, string>) returns (changed: bool)
    ensures changed <==> before != after
  {
    if |before| != |after| {
      return true;
    }
    var keys := after.Keys;
    while keys != {}
      invariant keys <= after.Keys
      invariant forall k :: k in after.Keys - keys ==> k in before && before[k] == after[k]
      decreases keys
    {
      var k :| k in keys;
      if k !in before || after[k] != before[k] {
        return true;
      }
      keys := keys - {k};
    }
    SameSizeSubmap(after, before);
    return false;
  }

  lemma SameSizeSubmap(a: map<string, string>, b: map<string, string>)
    requires |a| == |b| && forall k :: k in a ==> k in b && b[k] == a[k]
    ensures a == b
  {
    assert |a.Keys| == |a| && |b.Keys| == |b|;
    assert a.Keys <= b.Keys;
    SubsetOfSameSize(a.Keys, b.Keys);
  }

  /** Options may as well be assigned last. */
  lemma OptionsLast(run: Run, o: RefreshOptions, call: Call)
    ensures Called(WithOptions(run, o), call) == WithOptions(Called(run, call), o)
  {
  }

  lemma OptionsAfterSettings(run: Run, o: RefreshOptions, settings: Settings)
    ensures WithSettings(WithOptions(run, o), settings) == WithOptions(WithSettings(run, settings), o)
    ensures forall p ::
              WithOptions(WithOptions(WithSettings(run, settings), o), p) == WithOptions(WithSettings(run, settings), p)
  {
  }

  /** A changed sentinel or page means that the refresh is enabled, and new ETags are at hand. */
  predicate Consistent(o: RefreshOptions) {
    (o.sentinelChanged ==> o.keyValueRefreshEnabled) && (o.keyValuePageETagsChanged ==> o.updatedKeyValueETags.Some?)
  }

  predicate NothingChanged(o: RefreshOptions) { !o.sentinelChanged && !o.keyValuePageETagsChanged }

  lemma ReloadIsConsistent(c: Codec, spec: Spec, store: Store, env: Env, data: Data, due: Time, run: Run)
    requires ValidSpec(spec) && env.keyValuesFetched < |store.keyValues| && run.options.keyValueRefreshEnabled
    ensures var step := ReloadKeyValues(c, spec, store, env, data, due, run); step.Go? ==> Consistent(step.run.options)
  {
    hide RefreshKeyValues, LoadedSettings, Loadable;
  }

  lemma DueKeyValueIsConsistent(c: Codec, spec: Spec, store: Store, env: Env, data: Data, due: Time, run: Run)
    requires ValidSpec(spec) && env.keyValuesFetched < |store.keyValues| && run.options.keyValueRefreshEnabled
    ensures var step :=
      DueKeyValueRefresh(c, spec, store, env, data, due, run); step.Go? ==> Consistent(step.run.options)
  {
    hide ReloadKeyValues;
    var called := Called(run, if spec.monitoring then CheckSentinels else CheckKeyValueETags);
    var checked := CheckedOptions(spec, store, env, run.recon, run.options);
    ReloadIsConsistent(c, spec, store, env, run.settings.configMap.GetOr(data), due,
                       Called(WithOptions(called, checked), RefreshKeyValueSettings));
  }

  lemma KeyValueRefreshIsConsistent(c: Codec, provider: Provider, store: Store, env: Env, data: Data, run: Run)
    requires ValidSpec(provider.spec) && env.keyValuesFetched < |store.keyValues|
    requires NothingChanged(run.options)
    ensures var step := KeyValueRefresh(c, provider, store, env, data, run); step.Go? ==> Consistent(step.run.options)
  {
    hide DueKeyValueRefresh;
    if KeyValueRefreshEnabled(provider.spec) {
      DueKeyValueIsConsistent(c, provider.spec, store, env, data, DeadlineAfter(env, provider.spec.keyValueRefresh),
                              WithOptions(run, run.options.(keyValueRefreshEnabled := true)));
    }
  }

  lemma FirstPhasesCheckNothing(c: Codec, provider: Provider, store: Store, env: Env, data: Data, run: Run)
    requires ValidSpec(provider.spec)
    requires env.keyValuesFetched < |store.keyValues| && env.featureFlagsFetched < |store.featureFlags|
    requires NothingChanged(run.options)
    ensures NothingChanged(FullReconciliation(c, provider, store, env, run).run.options)
    ensures NothingChanged(FeatureFlagRefresh(c, provider, store, env, data, run).run.options)
  {
    hide LoadedSettings, Loadable, Typed, DueFeatureFlagRefresh;
    var spec := provider.spec;
    if FeatureFlagRefreshEnabled(spec) {
      var enabled := WithOptions(run, run.options.(featureFlagRefreshEnabled := true));
      DueFeatureFlagsCheckNothing(c, spec, store, env, data, DeadlineAfter(env, spec.featureFlag.value),
                                  Called(enabled, CheckFeatureFlagETags));
    }
  }

  lemma DueFeatureFlagsCheckNothing(c: Codec, spec: Spec, store: Store, env: Env, data: Data, due: Time, run: Run)
    requires spec.configMapData.Some? && env.featureFlagsFetched < |store.featureFlags| && NothingChanged(run.options)
    ensures NothingChanged(DueFeatureFlagRefresh(c, spec, store, env, data, due, run).run.options)
  {
    hide RefreshFeatureFlags;
  }

  lemma SecretRefreshIsConsistent(c: Codec, provider: Provider, env: Env, existing: map<string, Secret>, run: Run)
    requires Consistent(run.options)
    ensures Consistent(SecretReferenceRefresh(c, provider, env, existing, run).run.options)
  {
    hide SecretReferenceRefresh;
    Deadlines.SecretRefreshStep(c, provider, env, existing, run);
  }

  lemma PopulateIsConsistent(c: Codec, provider: Provider, store: Store, env: Env, configMap: Option<ConfigMap>,
                             existing: map<string, Secret>, run: Run)
    requires ValidSpec(provider.spec) && run.options == NEW_OPTIONS
    requires env.keyValuesFetched < |store.keyValues| && env.featureFlagsFetched < |store.featureFlags|
    ensures var step :=
      PopulateSettings(c, provider, store, env, configMap, existing, run); step.Go? ==> Consistent(step.run.options)
  {
    hide FullReconciliation, FeatureFlagRefresh, KeyValueRefresh, SecretReferenceRefresh, ShouldReconcile, Consistent;
    var data := if configMap.Some? then configMap.value.data else map[];
    var start := run.(shouldReconcile := ShouldReconcile(provider, run.recon, configMap, existing));
    FirstPhasesCheckNothing(c, provider, store, env, data, start);
    var first := if start.shouldReconcile then FullReconciliation(c, provider, store, env, start) else Go(start);
    FirstPhasesCheckNothing(c, provider, store, env, data, first.run);
    var second := FeatureFlagRefresh(c, provider, store, env, data, first.run);
    KeyValueRefreshIsConsistent(c, provider, store, env, data, second.run);
    var third := KeyValueRefresh(c, provider, store, env, data, second.run);
    if third.Go? {
      SecretRefreshIsConsistent(c, provider, env, existing, third.run);
    }
  }

  function Deciding(run: Run, should: bool): Run { run.(shouldReconcile := should) }

  /** The phases after the first. */
  function RestOfPhases(c: Codec, provider: Provider, store: Store, env: Env, data: Data, existing: map<string,
                        Secret>, run: Run): Step
    requires ValidSpec(provider.spec)
    requires env.keyValuesFetched < |store.keyValues| && env.featureFlagsFetched < |store.featureFlags|
  {
    var second := FeatureFlagRefresh(c, provider, store, env, data, run);
    var third := if second.Go? then KeyValueRefresh(c, provider, store, env, data, second.run) else second;
    if third.Go? then SecretReferenceRefresh(c, provider, env, existing, third.run) else third
  }

  lemma PopulateInTwo(c: Codec, provider: Provider, store: Store, env: Env, configMap: Option<ConfigMap>,
                      existing: map<string, Secret>, run: Run)
    requires ValidSpec(provider.spec)
    requires env.keyValuesFetched < |store.keyValues| && env.featureFlagsFetched < |store.featureFlags|
    ensures var should := ShouldReconcile(provider, run.recon, configMap, existing);
            var first := if should then FullReconciliation(c, provider, store, env, Deciding(run, true))
                         else Go(Deciding(run, false));
            PopulateSettings(c, provider, store, env, configMap, existing, run)
            == if first.Go? then RestOfPhases(c, provider, store, env,
                                              if configMap.Some? then configMap.value.data else map[], existing,
                                                first.run)
               else first
  {
    hide FullReconciliation, FeatureFlagRefresh, KeyValueRefresh, SecretReferenceRefresh, ShouldReconcile;
  }

  class AppConfigurationProviderProcessor {
    const provider: Provider
    const state: ReconciliationState
    const client: ClusterClient
    const store: Store
    const env: Env
    const codec: Codec
    var shouldReconcile: bool
    var configMapSettings: Option<Data>
    var secretSettings: map<string, SecretContent>
    var k8sSecrets: SecretMetadata
    var options: RefreshOptions
    var panicked: bool

    ghost function View(): Run
      reads this, state, client, state.existingK8sSecrets, k8sSecrets
    {
      Run(state.View(), client.cluster, shouldReconcile,
          Settings(configMapSettings, secretSettings,
                   if k8sSecrets == state.existingK8sSecrets then Shared else Own(k8sSecrets.entries)),
          options, client.trace, panicked)
    }

    lemma ViewFields()
      ensures View().options == options && View().shouldReconcile == shouldReconcile && View().recon == state.View()
      ensures View().settings.configMap == configMapSettings && View().settings.secrets == secretSettings
      ensures View().cluster == client.cluster && View().trace == client.trace && View().panicked == panicked
    {
    }

    ghost predicate Valid() {
      && ValidSpec(provider.spec)
      && env.keyValuesFetched < |store.keyValues| && env.featureFlagsFetched < |store.featureFlags|
    }

    constructor (provider: Provider, state: ReconciliationState, client: ClusterClient, store: Store, env: Env,
                 codec: Codec)
      requires ValidSpec(provider.spec)
      requires env.keyValuesFetched < |store.keyValues| && env.featureFlagsFetched < |store.featureFlags|
      ensures Valid() && this.provider == provider && this.state == state && this.client == client
      ensures this.store == store && this.env == env && this.codec == codec && fresh(k8sSecrets)
      ensures View() == Run(state.View(), client.cluster, false, Settings(None, map[], Own(map[])), NEW_OPTIONS,
                            client.trace, false)
    {
      this.provider, this.state, this.client, this.store, this.env, this.codec :=
        provider, state, client, store, env, codec;
      shouldReconcile, options, panicked := false, NEW_OPTIONS, false;
      configMapSettings, secretSettings := None, map[];
      k8sSecrets := new SecretMetadata(map[]);
    }

    ghost method Call(call: Call)
      modifies client`trace
      ensures client.trace == old(client.trace) + [call]
      ensures View() == Called(old(View()), call)
    {
      client.trace := client.trace + [call];
    }

    /** Replaces the settings, with metadata of their own. */
    method SetSettings(configMap: Option<Data>, secrets: map<string, SecretContent>, metadata: map<string, Tracked>)
      modifies this`configMapSettings, this`secretSettings, this`k8sSecrets
      ensures configMapSettings == configMap && secretSettings == secrets
      ensures fresh(k8sSecrets) && k8sSecrets.entries == metadata
      ensures View() == WithSettings(old(View()), Settings(configMap, secrets, Own(metadata)))
    {
      configMapSettings, secretSettings := configMap, secrets;
      k8sSecrets := new SecretMetadata(metadata);
    }

    method DetectDrift(configMap: Option<ConfigMap>, existing: map<string, SecretObject>) returns (should: bool)
      ensures should == ShouldReconcile(provider, state.View(), configMap, Values(existing))
    {
      if provider.generation != state.generation {
        return true;
      }
      var changed := AnnotationChanged(state.annotations, provider.annotations);
      if changed {
        return true;
      }
      if state.configMapResourceVersion.None? || configMap.None?
        || state.configMapResourceVersion.value != configMap.value.version {
        return true;
      }
      if provider.spec.secret.None? {
        return false;
      }
      var tracked := state.existingK8sSecrets.entries;
      assert |Values(existing)| == |existing| by {
        assert Values(existing).Keys == existing.Keys && |Values(existing)| == |Values(existing).Keys|
               && |existing| == |existing.Keys|;
      }
      if |tracked| == 0 || |tracked| != |existing| {
        return true;
      }
      var names := existing.Keys;
      while names != {}
        invariant names <= existing.Keys
        invariant forall n ::
                    n in existing.Keys - names && n in tracked ==> tracked[n].version == Some(existing[n].version)
        decreases names
      {
        var n :| n in names;
        if n in tracked && tracked[n].version != Some(existing[n].version) {
          assert n in Values(existing) && Values(existing)[n].version == existing[n].version;
          return true;
        }
        names := names - {n};
      }
      return false;
    }

    /** The reconcile is at an end: nothing but the deferred status patch comes after. */
    method Panic()
      modifies this`panicked
      ensures View() == Panicking(old(View()))
    {
      panicked := true;
    }

    /** Assigns the options. */
    method SetOptions(o: RefreshOptions)
      modifies this`options
      ensures options == o && View() == WithOptions(old(View()), o)
    {
      options := o;
    }

    method ProcessFullReconciliation() returns (ok: bool)
      requires Valid()
      modifies this, client`trace
      ensures FullReconciliation(codec, provider, store, env, old(View())) == if ok then Go(View()) else Stop(View())
      ensures if ok then fresh(k8sSecrets) else k8sSecrets == old(k8sSecrets)
    {
      hide Typed, LoadedSettings, Loadable, View;
      var spec, content := provider.spec, store.keyValues[env.keyValuesFetched];
      Call(CreateTargetSettings);
      if env.fault(CreateTargetSettings) != Fine || !Loadable(spec, content) {
        return false;
      }
      if !content.buildable {
        Panic();
        return false;
      }
      LoadSettings(Typed(codec, content.settings, Flags(spec, store, env.featureFlagsFetched), spec.configMapData),
                   content.references);
      ViewFields();
      SetOptions(options.(
        configMapSettingPopulated := true,
        updatedKeyValueETags := Some(env.keyValuesFetched),
        updatedFeatureFlagETags := if spec.featureFlag.Some? then Some(env.featureFlagsFetched) else None,
        updatedSentinelETags :=
          if KeyValueRefreshEnabled(spec) && spec.monitoring then Some(SentinelAt(store, env.sentinelRead)) else None,
        secretSettingPopulated := spec.secret.Some?));
      return true;
    }

    method SetNextFeatureFlag(time: Time)
      modifies state`nextFeatureFlagRefresh
      ensures View() == NextFeatureFlag(old(View()), time)
    {
      state.nextFeatureFlagRefresh := time;
    }

    method SetNextKeyValue(time: Time)
      modifies state`nextKeyValueRefresh
      ensures View() == NextKeyValue(old(View()), time)
    {
      state.nextKeyValueRefresh := time;
    }

    method SetNextSecretReference(time: Time)
      modifies state`nextSecretReferenceRefresh
      ensures View() == NextSecret(old(View()), time)
    {
      state.nextSecretReferenceRefresh := time;
    }

    /** The rest of a feature-flag refresh, once the check of the page ETags has been called. */
    method FinishFeatureFlagRefresh(existing: Data, due: Time) returns (ok: bool)
      requires Valid() && provider.spec.configMapData.Some?
      modifies this, client`trace, state`nextFeatureFlagRefresh
      ensures DueFeatureFlagRefresh(codec, provider.spec, store, env, existing, due, old(View()))
              == if ok then Go(View()) else Stop(View())
      ensures k8sSecrets == old(k8sSecrets) || fresh(k8sSecrets)
    {
      hide View, RefreshFeatureFlags, WithOptions, WithSettings, Called, NextFeatureFlag;
      ghost var start := View();
      if env.fault(CheckFeatureFlagETags) != Fine {
        return false;
      }
      ViewFields();
      var needed := PagesChanged(state.featureFlagETags, env.featureFlagsChecked);
      if !needed {
        SetNextFeatureFlag(due);
        return true;
      }
      SetOptions(options.(featureFlagRefreshNeeded := true));
      Call(RefreshFeatureFlagSettings);
      OptionsLast(start, options, RefreshFeatureFlagSettings);
      var data := RefreshFeatureFlags(codec, store.featureFlags[env.featureFlagsFetched], existing,
                                      provider.spec.configMapData.value);
      if env.fault(RefreshFeatureFlagSettings) != Fine || data.None? {
        return false;
      }
      SetSettings(data, map[], map[]);
      OptionsAfterSettings(Called(start, RefreshFeatureFlagSettings), options, Settings(data, map[], Own(map[])));
      SetOptions(options.(configMapSettingPopulated := true, updatedFeatureFlagETags := Some(env.featureFlagsFetched)));
      SetNextFeatureFlag(due);
      return true;
    }

    method ProcessFeatureFlagRefresh(existing: Data) returns (ok: bool)
      requires Valid()
      modifies this, client`trace, state`nextFeatureFlagRefresh
      ensures FeatureFlagRefresh(codec, provider, store, env, existing, old(View()))
              == if ok then Go(View()) else Stop(View())
      ensures k8sSecrets == old(k8sSecrets) || fresh(k8sSecrets)
    {
      hide View, DueFeatureFlagRefresh;
      var spec := provider.spec;
      ViewFields();
      if !FeatureFlagRefreshEnabled(spec) {
        SetNextFeatureFlag(0);
        return true;
      }
      SetOptions(options.(featureFlagRefreshEnabled := true));
      var due := DeadlineAfter(env, spec.featureFlag.value);
      if shouldReconcile {
        SetNextFeatureFlag(due);
        return true;
      }
      if !(env.now > state.nextFeatureFlagRefresh) {
        return true;
      }
      Call(CheckFeatureFlagETags);
      ok := FinishFeatureFlagRefresh(existing, due);
    }

    method OptionsAfterReload() returns (updated: RefreshOptions)
      ensures updated == ReloadedOptions(provider.spec, env, options)
    {
      updated := options.(configMapSettingPopulated := true);
      if updated.keyValuePageETagsChanged {
        updated := updated.(updatedKeyValueETags := Some(env.keyValuesFetched));
      }
      if provider.spec.secret.Some? {
        updated := updated.(secretSettingPopulated := true);
      }
    }

    /** The reload of a key-value refresh, once it has been called. */
    method FinishKeyValueRefresh(existing: Data, due: Time) returns (ok: bool)
      requires Valid()
      modifies this, client`trace, state`nextKeyValueRefresh
      ensures ReloadKeyValues(codec, provider.spec, store, env, existing, due, old(View()))
              == if ok then Go(View()) else Stop(View())
      ensures k8sSecrets == old(k8sSecrets) || fresh(k8sSecrets)
    {
      hide View, RefreshKeyValues, LoadedSettings, Loadable, WithOptions, WithSettings, NextKeyValue, ReloadedOptions,
           Panicking;
      ViewFields();
      var spec, content := provider.spec, store.keyValues[env.keyValuesFetched];
      var data := RefreshKeyValues(codec, content.settings, existing, spec.featureFlag.Some?, spec.configMapData);
      if env.fault(RefreshKeyValueSettings) != Fine || !Loadable(spec, content) || data.None? {
        return false;
      }
      if !content.buildable {
        Panic();
        return false;
      }
      TakeReloaded(data.value, content.references, due);
      return true;
    }

    method TakeReloaded(data: Data, references: map<string, SettingLoader.TargetSecret>, due: Time)
      modifies this, state`nextKeyValueRefresh
      ensures var settings := LoadedSettings(codec, provider.spec, env, data, references);
              var reloaded := WithOptions(WithSettings(old(View()), settings),
                                          ReloadedOptions(provider.spec, env, old(View()).options));
              View() == NextKeyValue(reloaded, due)
      ensures fresh(k8sSecrets)
    {
      hide View, LoadedSettings, WithOptions, WithSettings, NextKeyValue, ReloadedOptions;
      ViewFields();
      LoadSettings(data, references);
      var updated := OptionsAfterReload();
      SetOptions(updated);
      SetNextKeyValue(due);
    }

    /** Replaces the settings by those of a load: the data, and the resolved Secrets with
        metadata of their own. */
    method LoadSettings(data: Data, references: map<string, SettingLoader.TargetSecret>)
      modifies this`configMapSettings, this`secretSettings, this`k8sSecrets
      ensures View() == WithSettings(old(View()), LoadedSettings(codec, provider.spec, env, data, references))
      ensures fresh(k8sSecrets)
    {
      hide View, WithSettings, Resolved, SelectedMetadata;
      var metadata := SelectedMetadata(provider.spec, references);
      SetSettings(Some(data), Resolved(codec, env, SecretOptions(provider.spec), metadata), metadata);
    }

    method CheckAndReloadKeyValues(existing: Data, due: Time) returns (ok: bool)
      requires Valid()
      modifies this, client`trace, state`nextKeyValueRefresh
      ensures DueKeyValueRefresh(codec, provider.spec, store, env, existing, due, old(View()))
              == if ok then Go(View()) else Stop(View())
      ensures k8sSecrets == old(k8sSecrets) || fresh(k8sSecrets)
    {
      hide View, ReloadKeyValues, WithOptions, Called, NextKeyValue;
      var spec := provider.spec;
      ghost var start := View();
      ViewFields();
      var check := if spec.monitoring then CheckSentinels else CheckKeyValueETags;
      Call(check);
      if env.fault(check) != Fine {
        return false;
      }
      ghost var recon := state.View();
      var checked := options;
      if spec.monitoring {
        var seen := Some(SentinelAt(store, env.sentinelChecked));
        checked := checked.(sentinelChanged := state.sentinelETags != seen, updatedSentinelETags := seen);
      } else {
        checked := checked.(keyValuePageETagsChanged := PagesChanged(state.keyValueETags, env.keyValuesChecked));
      }
      assert checked == CheckedOptions(spec, store, env, recon, options);
      SetOptions(checked);
      if !options.sentinelChanged && !options.keyValuePageETagsChanged {
        SetNextKeyValue(due);
        return true;
      }
      var latest := if configMapSettings.Some? then configMapSettings.value else existing;
      Call(RefreshKeyValueSettings);
      ok := FinishKeyValueRefresh(latest, due);
    }

    method ProcessKeyValueRefresh(existing: Data) returns (ok: bool)
      requires Valid()
      modifies this, client`trace, state`nextKeyValueRefresh
      ensures KeyValueRefresh(codec, provider, store, env, existing, old(View()))
              == if ok then Go(View()) else Stop(View())
      ensures k8sSecrets == old(k8sSecrets) || fresh(k8sSecrets)
    {
      hide View, DueKeyValueRefresh;
      var spec := provider.spec;
      ViewFields();
      if !KeyValueRefreshEnabled(spec) {
        SetNextKeyValue(0);
        return true;
      }
      SetOptions(options.(keyValueRefreshEnabled := true));
      var due := DeadlineAfter(env, spec.keyValueRefresh);
      if shouldReconcile {
        SetNextKeyValue(due);
        return true;
      }
      if !(env.now > state.nextKeyValueRefresh) {
        return true;
      }
      ok := CheckAndReloadKeyValues(existing, due);
    }

    /** The rest of a secret refresh, once the resolution has been called. */
    method FinishSecretReferenceRefresh(existing: map<string, SecretObject>, due: Time) returns (ok: bool)
      requires Valid() && provider.spec.secret.Some?
      modifies this, client`trace, state`nextSecretReferenceRefresh
      ensures DueSecretRefresh(codec, provider.spec, env, Values(existing), due, old(View()))
              == if ok then Go(View()) else Stop(View())
      ensures k8sSecrets == old(k8sSecrets) || k8sSecrets == state.existingK8sSecrets
    {
      hide View, Resolved, ToResolve, Overlaid, Values, WithOptions, WithSettings, NextSecret, WritesIntoNil, Panicking,
           DueSecretRefresh;
      ViewFields();
      DueSecretRefreshIs(codec, provider.spec, env, Values(existing), due, View());
      if env.fault(ResolveSecretReferences) != Fine {
        return false;
      }
      var toResolve := CollectUnversioned(state.existingK8sSecrets.entries);
      var resolved := Resolved(codec, env, SecretOptions(provider.spec), toResolve);
      if WritesIntoNil(Values(existing), resolved) {
        Panic();
        return false;
      }
      var secrets := OverlaySecrets(existing, resolved);
      TakeRefreshed(secrets, due);
      return true;
    }

    lemma DueSecretRefreshIs(c: Codec, spec: Spec, env: Env, existing: map<string, Secret>, due: Time, run: Run)
      ensures var resolved := Resolved(c, env, SecretOptions(spec), ToResolve(run.recon.secrets));
              var settings := run.settings.(secrets := Overlaid(existing, resolved), metadata := Shared);
              DueSecretRefresh(c, spec, env, existing, due, run)
              == if env.fault(ResolveSecretReferences) != Fine then Stop(run)
                 else if WritesIntoNil(existing, resolved) then Stop(Panicking(run))
                 else Go(NextSecret(WithOptions(WithSettings(run, settings),
                                                run.options.(secretSettingPopulated := true)), due))
    {
    }

    method TakeRefreshed(secrets: map<string, SecretContent>, due: Time)
      modifies this, state`nextSecretReferenceRefresh
      ensures var settings := old(View()).settings.(secrets := secrets, metadata := Shared);
              var refreshed := WithOptions(WithSettings(old(View()), settings),
                                           old(View()).options.(secretSettingPopulated := true));
              View() == NextSecret(refreshed, due)
      ensures k8sSecrets == state.existingK8sSecrets
    {
      hide View, WithOptions, NextSecret;
      ViewFields();
      ShareSecrets(secrets);
      ViewFields();
      SetOptions(options.(secretSettingPopulated := true));
      SetNextSecretReference(due);
    }

    /** Takes over the secrets, with the very metadata of the state. */
    method ShareSecrets(secrets: map<string, SecretContent>)
      modifies this`secretSettings, this`k8sSecrets
      ensures View() == WithSettings(old(View()), old(View()).settings.(secrets := secrets, metadata := Shared))
      ensures k8sSecrets == state.existingK8sSecrets
    {
      secretSettings := secrets;
      k8sSecrets := state.existingK8sSecrets;
    }

    method ProcessSecretReferenceRefresh(existing: map<string, SecretObject>) returns (ok: bool)
      requires Valid()
      modifies this, client`trace, state`nextSecretReferenceRefresh
      ensures SecretReferenceRefresh(codec, provider, env, Values(existing), old(View()))
              == if ok then Go(View()) else Stop(View())
      ensures k8sSecrets == old(k8sSecrets) || k8sSecrets == state.existingK8sSecrets
    {
      hide View, DueSecretRefresh, Values;
      var spec := provider.spec;
      ViewFields();
      if !SecretRefreshEnabled(spec) {
        SetNextSecretReference(0);
        return true;
      }
      SetOptions(options.(secretReferenceRefreshEnabled := true));
      if !(env.now > state.nextSecretReferenceRefresh) {
        return true;
      }
      SetOptions(options.(secretReferenceRefreshNeeded := true));
      var due := DeadlineAfter(env, spec.secret.value.refresh);
      if options.secretSettingPopulated {
        SetNextSecretReference(due);
        return true;
      }
      Call(ResolveSecretReferences);
      ok := FinishSecretReferenceRefresh(existing, due);
    }

    method ReconcileInFullIf(should: bool) returns (ok: bool)
      requires Valid()
      modifies this, client`trace
      ensures (if should then FullReconciliation(codec, provider, store, env, Deciding(old(View()), true))
               else Go(Deciding(old(View()), false)))
              == if ok then Go(View()) else Stop(View())
      ensures k8sSecrets == old(k8sSecrets) || fresh(k8sSecrets)
    {
      hide View, FullReconciliation, Deciding;
      SetShouldReconcile(should);
      ok := true;
      if shouldReconcile {
        ok := ProcessFullReconciliation();
      }
    }

    /** All phases in order, each on what the one before has left. */
    method Populate(configMap: Option<ConfigMap>, existing: map<string, SecretObject>) returns (ok: bool)
      requires Valid()
      modifies this, client`trace, state`nextFeatureFlagRefresh, state`nextKeyValueRefresh,
               state`nextSecretReferenceRefresh
      ensures PopulateSettings(codec, provider, store, env, configMap, old(Values(existing)), old(View()))
              == if ok then Go(View()) else Stop(View())
      ensures k8sSecrets == old(k8sSecrets) || fresh(k8sSecrets) || k8sSecrets == state.existingK8sSecrets
    {
      hide View, FullReconciliation, RestOfPhases, PopulateSettings, ShouldReconcile, Values, Deciding;
      ViewFields();
      PopulateInTwo(codec, provider, store, env, configMap, Values(existing), View());
      var should := DetectDrift(configMap, existing);
      ok := ReconcileInFullIf(should);
      if !ok {
        return false;
      }
      ok := PopulateRest(if configMap.Some? then configMap.value.data else map[], existing);
    }

    /** The phases after the first. */
    method PopulateRest(data: Data, existing: map<string, SecretObject>) returns (ok: bool)
      requires Valid()
      modifies this, client`trace, state`nextFeatureFlagRefresh, state`nextKeyValueRefresh,
               state`nextSecretReferenceRefresh
      ensures RestOfPhases(codec, provider, store, env, data, old(Values(existing)), old(View()))
              == if ok then Go(View()) else Stop(View())
      ensures k8sSecrets == old(k8sSecrets) || fresh(k8sSecrets) || k8sSecrets == state.existingK8sSecrets
    {
      hide View, FeatureFlagRefresh, KeyValueRefresh, SecretReferenceRefresh, Values;
      ghost var live := Values(existing);
      ok := ProcessFeatureFlagRefresh(data);
      if !ok {
        return false;
      }
      ok := ProcessKeyValueRefresh(data);
      if !ok {
        return false;
      }
      assert Values(existing) == live;
      ok := ProcessSecretReferenceRefresh(existing);
    }

    method SetShouldReconcile(should: bool)
      modifies this`shouldReconcile
      ensures shouldReconcile == should && View() == Deciding(old(View()), should)
    {
      shouldReconcile := should;
    }

    /** The time until the earliest deadline that is set, but at least a second. */
    method CalculateRequeueAfterInterval() returns (interval: Time)
      ensures interval == RequeueAfter(state.View(), env.finish)
    {
      var times: seq<Time> :=
        [state.nextKeyValueRefresh, state.nextSecretReferenceRefresh, state.nextFeatureFlagRefresh];
      var next: Time := 0;
      for i := 0 to |times|
        invariant next == EarliestOf(times[..i])
      {
        assert times[..i + 1] == times[..i] + [times[i]];
        if times[i] != 0 && (next == 0 || times[i] < next) {
          next := times[i];
        }
      }
      assert times[..3] == times && times[..2] == [times[0], times[1]] && times[..1] == [times[0]];
      EarliestOfThree(times[0], times[1], times[2]);
      if next - env.finish < SECOND {
        return SECOND;
      }
      return next - env.finish;
    }

    /** Records the generation and annotations, and the metadata of populated Secrets. */
    method RecordIdentity()
      modifies state`generation, state`annotations, state`existingK8sSecrets
      ensures state.generation == provider.generation && state.annotations == provider.annotations
      ensures state.existingK8sSecrets == if options.secretSettingPopulated then k8sSecrets
              else old(state.existingK8sSecrets)
    {
      state.generation := provider.generation;
      state.annotations := provider.annotations;
      if options.secretSettingPopulated {
        state.existingK8sSecrets := k8sSecrets;
      }
    }

    method RecordETags()
      modifies state`keyValueETags, state`featureFlagETags, state`sentinelETags
      ensures state.keyValueETags == if options.updatedKeyValueETags.Some? then options.updatedKeyValueETags
              else old(state.keyValueETags)
      ensures state.featureFlagETags == if options.updatedFeatureFlagETags.Some? then options.updatedFeatureFlagETags
              else old(state.featureFlagETags)
      ensures state.sentinelETags == if shouldReconcile then options.updatedSentinelETags else old(state.sentinelETags)
    {
      if options.updatedKeyValueETags.Some? {
        state.keyValueETags := options.updatedKeyValueETags;
      }
      if options.updatedFeatureFlagETags.Some? {
        state.featureFlagETags := options.updatedFeatureFlagETags;
      }
      if shouldReconcile {
        state.sentinelETags := options.updatedSentinelETags;
      }
    }

    method RecordChanges()
      modifies state`keyValueETags, state`sentinelETags
      ensures state.keyValueETags == if options.keyValuePageETagsChanged then options.updatedKeyValueETags
              else old(state.keyValueETags)
      ensures state.sentinelETags == if options.sentinelChanged then options.updatedSentinelETags
              else old(state.sentinelETags)
    {
      if options.sentinelChanged {
        state.sentinelETags := options.updatedSentinelETags;
      }
      if options.keyValuePageETagsChanged {
        state.keyValueETags := options.updatedKeyValueETags;
      }
    }

    /** Records what the reconcile has achieved. */
    method Record()
      requires Consistent(options)
      modifies state
      ensures state.View() == FinishedRecon(provider, old(View()))
      ensures state.existingK8sSecrets == old(state.existingK8sSecrets) || state.existingK8sSecrets == k8sSecrets
    {
      hide View, MetadataOf;
      MetadataIs();
      ViewFields();
      RecordIdentity();
      RecordETags();
      if AnyRefreshEnabled(options) {
        RecordChanges();
      }
    }

    /** Records what the reconcile has achieved, and says when to come back. */
    method Finish() returns (requeueAfter: Option<Time>)
      requires Consistent(options)
      modifies state
      ensures (state.View(), Done(requeueAfter)) == Processor.Finish(provider, env, old(View()))
      ensures state.existingK8sSecrets == old(state.existingK8sSecrets) || state.existingK8sSecrets == k8sSecrets
    {
      hide RequeueAfter, View, FinishedRecon;
      ViewFields();
      Record();
      if !AnyRefreshEnabled(options) {
        return None;
      }
      var interval := CalculateRequeueAfterInterval();
      return Some(interval);
    }

    lemma MetadataIs()
      ensures MetadataOf(View()) == k8sSecrets.entries
    {
    }
  }

  function EarliestOf(times: seq<Time>): Time {
    if times == [] then 0 else EarlierOf(EarliestOf(times[..|times| - 1]), times[|times| - 1])
  }

  lemma EarliestOfThree(a: Time, b: Time, c: Time)
    ensures EarliestOf([a, b, c]) == EarlierOf(EarlierOf(EarlierOf(0, a), b), c)
  {
    var one: seq<Time>, two: seq<Time>, three: seq<Time> := [a], [a, b], [a, b, c];
    assert three[..2] == two && two[..1] == one && one[..0] == [];
    assert EarliestOf(one) == EarlierOf(0, a);
    assert EarliestOf(two) == EarlierOf(EarlierOf(0, a), b);
  }
}
