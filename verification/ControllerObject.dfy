/** The controller as the object it is (internal/controller/appconfigurationprovider_controller.go
    and internal/controller/utils.go): it reads what exists, lets the processor populate the
    settings, and writes and deletes objects one by one. Its methods are proved against the
    functions of module Reconciler. */
module ControllerObject {
  import opened Wrappers
  import opened TypedSetting
  import opened ReconcileTypes
  import opened Processor
  import opened Reconciler
  import opened ProcessorObject
  import opened NoLostUpdate
  import opened SecretSync
  import opened SecretGuarantees

  // ---------------------------------------------------------------- loops of utils.go

  /** An existing object may be taken over iff some owner reference is the provider's, in all of
      API version, kind, name and UID. */
  method VerifyExistingTargetObject(owners: seq<OwnerReference>, provider: Provider) returns (ok: bool)
    ensures ok <==> Owned(owners, provider)
  {
    for i := 0 to |owners|
      invariant provider.self !in owners[..i]
    {
      var owner := owners[i];
      if owner.apiVersion == provider.self.apiVersion && owner.kind == provider.self.kind
         && owner.name == provider.self.name && owner.uid == provider.self.uid {
        assert owner == provider.self;
        return true;
      }
    }
    return false;
  }

  /** The position is not escaped: it is preceded by an even number of backslashes in a row. */
  predicate Unescaped(filter: string, k: nat)
    requires k < |filter|
  {
    k == 0 || filter[k - 1] != '\\' || !Unescaped(filter, k - 1)
  }

  /** Whether a label filter holds a wildcard or a list: some unescaped star or comma. */
  method HasNonEscapedValueInLabel(filter: string) returns (found: bool)
    ensures found <==> exists k :: 0 <= k < |filter| && filter[k] in {'*', ','} && Unescaped(filter, k)
  {
    var i := 0;
    while i < |filter|
      invariant 0 <= i
      invariant i < |filter| ==> Unescaped(filter, i)
      invariant forall k :: 0 <= k < i && k < |filter| ==> !(filter[k] in {'*', ','} && Unescaped(filter, k))
    {
      if filter[i] == '\\' {
        i := i + 2;
      } else if filter[i] == '*' || filter[i] == ',' {
        return true;
      } else {
        i := i + 1;
      }
    }
    return false;
  }

  // ---------------------------------------------------------------- writing

  /** Writes the ConfigMap if its data differs, and records its version. */
  method CreateOrUpdateConfigMap(p: AppConfigurationProviderProcessor) returns (ok: bool)
    modifies p.client`cluster, p.client`trace, p.state`configMapResourceVersion
    ensures WriteConfigMap(p.codec, p.provider, p.env, old(p.View())) == if ok then Go(p.View()) else Stop(p.View())
  {
    hide ShouldCreateOrUpdateConfigMap;
    var name, latest := p.provider.spec.configMapName, p.configMapSettings.GetOr(map[]);
    var cluster := p.client.cluster;
    if name in cluster.configMaps
       && !ShouldCreateOrUpdateConfigMap(p.codec, cluster.configMaps[name].data, latest,
                                         p.provider.spec.configMapData) {
      p.state.configMapResourceVersion := Some(cluster.configMaps[name].version);
      return true;
    }
    p.Call(PutConfigMap);
    if p.env.fault(PutConfigMap) == Lost {
      return false;
    }
    p.client.cluster := WithConfigMap(cluster, p.provider, latest);
    if p.env.fault(PutConfigMap) == Unacknowledged {
      return false;
    }
    p.state.configMapResourceVersion := Some(cluster.nextVersion);
    return true;
  }

  /** Records the version of a written Secret in the metadata, wherever it is shared. */
  method RecordVersion(p: AppConfigurationProviderProcessor, name: string, version: nat)
    requires name in p.k8sSecrets.entries
    modifies p.k8sSecrets
    ensures p.View() == SetVersion(old(p.View()), name, version)
    ensures p.k8sSecrets.entries.Keys == old(p.k8sSecrets.entries.Keys)
  {
    var metadata := p.k8sSecrets;
    metadata.entries := metadata.entries[name := metadata.entries[name].(version := Some(version))];
  }

  method CreateOrUpdateSecret(p: AppConfigurationProviderProcessor, existing: map<string, Secret>,
                              name: string) returns (ok: bool)
    requires p.provider.spec.secret.Some? && name in p.secretSettings && name in p.k8sSecrets.entries
    modifies p.client`cluster, p.client`trace, p.k8sSecrets
    ensures WriteOneSecret(p.codec, p.provider, p.env, existing, name, old(p.View()))
            == if ok then Go(p.View()) else Stop(p.View())
    ensures p.k8sSecrets.entries.Keys == old(p.k8sSecrets.entries.Keys)
  {
    hide ShouldCreateOrUpdateSecret;
    var latest := p.secretSettings[name];
    var live := if name in existing then Some(existing[name].data) else None;
    p.MetadataIs();
    var copied := p.k8sSecrets == p.state.existingK8sSecrets;
    if !ShouldCreateOrUpdateSecret(p.codec, p.provider.spec.secret.value, name, latest.data, copied, live) {
      LiveWhenSkipped(p.codec, p.provider.spec.secret.value, name, latest.data, copied, live);
      RecordVersion(p, name, existing[name].version);
      return true;
    }
    ok := PutSecretObject(p, name, latest);
  }

  lemma LiveWhenSkipped(c: Codec, spec: SecretSpec, name: string, latest: Data, copied: bool, live: Option<Data>)
    requires !ShouldCreateOrUpdateSecret(c, spec, name, latest, copied, live)
    ensures live.Some?
  {
  }

  /** The write itself, and the record of its version. */
  method PutSecretObject(p: AppConfigurationProviderProcessor, name: string, latest: SecretContent) returns (ok: bool)
    requires name in p.k8sSecrets.entries
    modifies p.client`cluster, p.client`trace, p.k8sSecrets
    ensures var run := old(p.View());
            var called := Called(run, PutSecret(name));
            var written := called.(cluster := WithSecret(run.cluster, p.provider, name, latest));
            && name in MetadataOf(written)
            && (match p.env.fault(PutSecret(name))
                case Fine => ok && p.View() == SetVersion(written, name, run.cluster.nextVersion)
                case Lost => !ok && p.View() == called
                case Unacknowledged => !ok && p.View() == written)
    ensures p.k8sSecrets.entries.Keys == old(p.k8sSecrets.entries.Keys)
  {
    hide WithSecret, SetVersion;
    p.MetadataIs();
    var cluster := p.client.cluster;
    p.Call(PutSecret(name));
    if p.env.fault(PutSecret(name)) == Lost {
      return false;
    }
    p.client.cluster := WithSecret(cluster, p.provider, name, latest);
    if p.env.fault(PutSecret(name)) == Unacknowledged {
      return false;
    }
    RecordVersion(p, name, cluster.nextVersion);
    return true;
  }

  /** Writes the populated Secrets one by one, in the order in which the map is visited. */
  method CreateOrUpdateSecrets(p: AppConfigurationProviderProcessor, existing: map<string, Secret>,
                               names: seq<string>) returns (ok: bool)
    requires p.provider.spec.secret.Some?
    requires forall n :: n in names ==> n in p.secretSettings && n in p.k8sSecrets.entries
    modifies p.client`cluster, p.client`trace, p.k8sSecrets
    ensures WriteSecrets(p.codec, p.provider, p.env, existing, names, old(p.View()))
            == if ok then Go(p.View()) else Stop(p.View())
    ensures p.k8sSecrets.entries.Keys == old(p.k8sSecrets.entries.Keys)
  {
    hide WriteOneSecret, AppConfigurationProviderProcessor.View;
    p.ViewFields();
    for i := 0 to |names|
      invariant p.k8sSecrets.entries.Keys == old(p.k8sSecrets.entries.Keys)
      invariant p.View().settings.secrets == p.secretSettings
      invariant WriteSecrets(p.codec, p.provider, p.env, existing, names, old(p.View()))
                == WriteSecrets(p.codec, p.provider, p.env, existing, names[i..], p.View())
    {
      p.ViewFields();
      ok := CreateOrUpdateSecret(p, existing, names[i]);
      p.ViewFields();
      assert names[i..][0] == names[i] && names[i..][1..] == names[i + 1..];
      if !ok {
        return false;
      }
    }
    p.ViewFields();
    return true;
  }

  /** Deletes the Secrets of the given names that are not to be kept, one by one. */
  method ExpelRemovedSecrets(p: AppConfigurationProviderProcessor, names: seq<string>) returns (ok: bool)
    modifies p.client`cluster, p.client`trace
    ensures ExpelSecrets(p.env, p.k8sSecrets.entries.Keys, names, old(p.View()))
            == if ok then Go(p.View()) else Stop(p.View())
  {
    var keep := p.k8sSecrets.entries.Keys;
    for i := 0 to |names|
      invariant ExpelSecrets(p.env, keep, names, old(p.View())) == ExpelSecrets(p.env, keep, names[i..], p.View())
    {
      assert names[i..][0] == names[i] && names[i..][1..] == names[i + 1..];
      if names[i] !in keep {
        ok := DeleteSecretObject(p, names[i]);
        if !ok {
          return false;
        }
      }
    }
    return true;
  }

  method DeleteSecretObject(p: AppConfigurationProviderProcessor, name: string) returns (ok: bool)
    modifies p.client`cluster, p.client`trace
    ensures var called := Called(old(p.View()), DeleteSecret(name));
            var deleted := called.(cluster := called.cluster.(secrets := called.cluster.secrets - {name}));
            match p.env.fault(DeleteSecret(name))
            case Fine => ok && p.View() == deleted
            case Lost => !ok && p.View() == called
            case Unacknowledged => !ok && p.View() == deleted
  {
    p.Call(DeleteSecret(name));
    if p.env.fault(DeleteSecret(name)) == Lost {
      return false;
    }
    p.client.cluster := p.client.cluster.(secrets := p.client.cluster.secrets - {name});
    return p.env.fault(DeleteSecret(name)) == Fine;
  }

  // ---------------------------------------------------------------- reading

  function ReadCall(n: string, asNew: bool): Call { if asNew then GetNewSecret(n) else GetSecret(n) }

  /** Reads a Secret and checks its owner. */
  method CollectExistingSecret(provider: Provider, env: Env, cluster: Cluster, n: string, asNew: bool)
    returns (ok: bool, secret: SecretObject?)
    ensures ok <==> Reads(env, ReadCall(n, asNew), SecretOwners(cluster, n), provider)
    ensures ok && n in cluster.secrets ==> secret != null && fresh(secret) && secret.View() == cluster.secrets[n]
    ensures ok && n !in cluster.secrets ==> secret == null
  {
    if env.fault(ReadCall(n, asNew)) != Fine {
      return false, null;
    }
    if n !in cluster.secrets {
      return true, null;
    }
    var live := cluster.secrets[n];
    ok := VerifyExistingTargetObject(live.owners, provider);
    secret := new SecretObject(live.owners, live.kind, live.data, live.version);
  }

  ghost predicate AllRead(env: Env, cluster: Cluster, provider: Provider, names: seq<string>, asNew: bool) {
    forall n :: n in names ==> Reads(env, ReadCall(n, asNew), SecretOwners(cluster, n), provider)
  }

  /** The objects are those of the cluster among the names. */
  ghost predicate AreLive(found: map<string, SecretObject>, cluster: Cluster, names: seq<string>)
    reads found.Values
  {
    && (forall n :: n in found <==> n in names && n in cluster.secrets)
    && forall n :: n in found ==> found[n].View() == cluster.secrets[n]
  }

  /** Reads the Secrets of the given names; stops at the first that fails. */
  method CollectExistingSecrets(provider: Provider, env: Env, cluster: Cluster, names: seq<string>, asNew: bool)
    returns (ok: bool, found: map<string, SecretObject>)
    ensures ok <==> AllRead(env, cluster, provider, names, asNew)
    ensures ok ==> AreLive(found, cluster, names) && fresh(found.Values)
  {
    hide Reads;
    found := map[];
    for i := 0 to |names|
      invariant AllRead(env, cluster, provider, names[..i], asNew)
      invariant AreLive(found, cluster, names[..i]) && fresh(found.Values)
    {
      var n := names[i];
      assert names[..i + 1] == names[..i] + [n];
      var read, secret := CollectExistingSecret(provider, env, cluster, n, asNew);
      if !read {
        assert n in names;
        return false, map[];
      }
      if secret != null {
        ghost var before := found;
        found := found[n := secret];
        assert found.Values <= before.Values + {secret};
      }
    }
    assert names[..|names|] == names;
    return true, found;
  }

  /** Forgets the versions of the tracked Secrets that are not live. */
  method ForgetMissingVersions(metadata: SecretMetadata, existing: set<string>)
    modifies metadata
    ensures metadata.entries == map n | n in old(metadata.entries) ::
              if n in existing then old(metadata.entries)[n] else old(metadata.entries)[n].(version := None)
  {
    var names := metadata.entries.Keys;
    while names != {}
      invariant names <= old(metadata.entries).Keys && metadata.entries.Keys == old(metadata.entries).Keys
      invariant forall n :: n in metadata.entries ==>
                  metadata.entries[n] == if n in existing || n in names then old(metadata.entries)[n]
                                         else old(metadata.entries)[n].(version := None)
      decreases names
    {
      var n :| n in names;
      if n !in existing {
        metadata.entries := metadata.entries[n := metadata.entries[n].(version := None)];
      }
      names := names - {n};
    }
  }

  /** Writes the populated Secrets, then deletes those that are no longer wanted. */
  method Sync(p: AppConfigurationProviderProcessor, existing: map<string, Secret>) returns (ok: bool)
    requires ListsKeys(p.env)
    requires p.options.secretSettingPopulated ==>
               p.provider.spec.secret.Some? && p.secretSettings.Keys == p.k8sSecrets.entries.Keys
    modifies p.client`cluster, p.client`trace, p.k8sSecrets
    ensures SyncSecrets(p.codec, p.provider, p.env, existing, old(p.View()))
            == if ok then Go(p.View()) else Stop(p.View())
  {
    hide WriteSecrets, ExpelSecrets, AppConfigurationProviderProcessor.View, MetadataOf;
    p.ViewFields();
    p.MetadataIs();
    if !p.options.secretSettingPopulated {
      ok := true;
      if p.provider.spec.secret.None? {
        ok := ExpelRemovedSecrets(p, p.env.order(existing.Keys));
      }
      return;
    }
    ok := WriteAndExpel(p, existing);
  }

  method WriteAndExpel(p: AppConfigurationProviderProcessor, existing: map<string, Secret>) returns (ok: bool)
    requires ListsKeys(p.env) && p.options.secretSettingPopulated
    requires p.provider.spec.secret.Some? && p.secretSettings.Keys == p.k8sSecrets.entries.Keys
    modifies p.client`cluster, p.client`trace, p.k8sSecrets
    ensures SyncSecrets(p.codec, p.provider, p.env, existing, old(p.View()))
            == if ok then Go(p.View()) else Stop(p.View())
  {
    hide WriteSecrets, ExpelSecrets, AppConfigurationProviderProcessor.View, MetadataOf, AreLive, Live, ReadsNew;
    p.ViewFields();
    ghost var start := p.View();
    var missing := p.env.order(p.secretSettings.Keys - existing.Keys);
    var names := p.env.order(p.secretSettings.Keys);
    assert Lists(missing, p.secretSettings.Keys - existing.Keys) && Lists(names, p.secretSettings.Keys);
    var read, found := CollectExistingSecrets(p.provider, p.env, p.client.cluster, missing, true);
    AllReadIsReadsNew(p.provider, p.env, existing, start, missing);
    if !read {
      return false;
    }
    LiveValues(found, p.client.cluster, missing, p.secretSettings.Keys - existing.Keys);
    var collected := existing + Values(found);
    ok := CreateOrUpdateSecrets(p, collected, names);
    if ok {
      p.MetadataIs();
      ok := ExpelRemovedSecrets(p, p.env.order(collected.Keys));
    }
  }

  lemma AllReadIsReadsNew(provider: Provider, env: Env, existing: map<string, Secret>, run: Run, missing: seq<string>)
    requires Lists(missing, run.settings.secrets.Keys - existing.Keys)
    ensures AllRead(env, run.cluster, provider, missing, true) == ReadsNew(provider, env, existing, run)
  {
    hide Reads;
    assert forall n :: n in missing <==> n in run.settings.secrets && n !in existing;
    assert forall n :: ReadCall(n, true) == GetNewSecret(n);
  }

  lemma LiveValues(found: map<string, SecretObject>, cluster: Cluster, names: seq<string>, keys: set<string>)
    requires AreLive(found, cluster, names) && forall n :: n in names <==> n in keys
    ensures Values(found) == Live(cluster, keys)
  {
  }

  // ---------------------------------------------------------------- preparing the state

  /** Brings the state in line with what exists: no version for objects that are gone, and no
      tracked Secrets when none are wanted. */
  method ResetState(state: ReconciliationState, provider: Provider, cluster: Cluster, existing: set<string>)
    requires provider.spec.secret.Some? ==>
               forall n :: n in state.existingK8sSecrets.entries ==> (n in existing <==> n in cluster.secrets)
    modifies state, state.existingK8sSecrets
    ensures state.View() == Reset(provider.spec, old(state.View()), cluster)
    ensures state.existingK8sSecrets == old(state.existingK8sSecrets) || fresh(state.existingK8sSecrets)
  {
    ghost var before := state.View();
    ghost var reset := Reset(provider.spec, before, cluster);
    if provider.spec.configMapName !in cluster.configMaps {
      state.configMapResourceVersion := None;
    }
    if provider.spec.secret.None? {
      state.existingK8sSecrets := new SecretMetadata(map[]);
    } else {
      ForgetMissingVersions(state.existingK8sSecrets, existing);
    }
    assert state.existingK8sSecrets.entries == reset.secrets;
  }

  /** Makes a client manager for a new provider or generation. */
  method RenewClientManager(state: ReconciliationState, provider: Provider, env: Env) returns (ok: bool)
    modifies state`hasClientManager
    ensures var reset := old(state.View());
            if reset.hasClientManager && reset.generation == provider.generation then ok && state.View() == reset
            else if env.fault(NewClientManager) != Fine then !ok && state.View() == reset
            else ok && state.View() == reset.(hasClientManager := true)
  {
    if !state.hasClientManager || state.generation != provider.generation {
      if env.fault(NewClientManager) != Fine {
        return false;
      }
      state.hasClientManager := true;
    }
    return true;
  }

  ghost predicate SecretsRead(provider: Provider, cluster: Cluster, recon: Recon, env: Env) {
    forall n :: n in NamesToCollect(provider.spec, recon) ==> Reads(env, GetSecret(n), SecretOwners(cluster, n),
                                                                    provider)
  }

  /** Reads the target Secret and the tracked ones. */
  method CollectTrackedSecrets(state: ReconciliationState, provider: Provider, env: Env, cluster: Cluster)
    returns (ok: bool, existing: map<string, SecretObject>)
    requires ListsKeys(env)
    ensures ok == SecretsRead(provider, cluster, state.View(), env)
    ensures ok ==> Values(existing) == Live(cluster, NamesToCollect(provider.spec, state.View()))
    ensures ok && provider.spec.secret.Some? ==>
              forall n :: n in state.existingK8sSecrets.entries ==> (n in existing <==> n in cluster.secrets)
  {
    hide Live, AreLive, Reads;
    existing := map[];
    if provider.spec.secret.None? {
      LiveNothing(existing, cluster);
      return true, existing;
    }
    var tracked := state.existingK8sSecrets.entries.Keys;
    var order := env.order(tracked);
    assert Lists(order, tracked);
    var names := [provider.spec.secret.value.target] + order;
    ok, existing := CollectExistingSecrets(provider, env, cluster, names, false);
    AllReadIsCollected(provider, env, cluster, names, NamesToCollect(provider.spec, state.View()));
    if ok {
      LiveValues(existing, cluster, names, NamesToCollect(provider.spec, state.View()));
      LiveNames(existing, cluster, names);
    }
  }

  lemma LiveNothing(existing: map<string, SecretObject>, cluster: Cluster)
    requires existing == map[]
    ensures Values(existing) == Live(cluster, {})
  {
  }

  lemma LiveNames(found: map<string, SecretObject>, cluster: Cluster, names: seq<string>)
    requires AreLive(found, cluster, names)
    ensures forall n :: n in names ==> (n in found <==> n in cluster.secrets)
  {
  }

  lemma AllReadIsCollected(provider: Provider, env: Env, cluster: Cluster, names: seq<string>, keys: set<string>)
    requires forall n :: n in names <==> n in keys
    ensures AllRead(env, cluster, provider, names, false)
            == forall n :: n in keys ==> Reads(env, GetSecret(n), SecretOwners(cluster, n), provider)
  {
    hide Reads;
    assert forall n :: ReadCall(n, false) == GetSecret(n);
  }

  /** Prepare, once the ConfigMap has been read. */
  ghost function PrepareRest(provider: Provider, cluster: Cluster, recon: Recon, env: Env): (bool, Recon) {
    if !SecretsRead(provider, cluster, recon, env) then (false, recon)
    else
      var reset := Reset(provider.spec, recon, cluster);
      if reset.hasClientManager && reset.generation == provider.generation then (true, reset)
      else if env.fault(NewClientManager) != Fine then (false, reset)
      else (true, reset.(hasClientManager := true))
  }

  lemma PrepareInTwo(provider: Provider, cluster: Cluster, before: Option<Recon>, env: Env)
    ensures Prepare(provider, cluster, before, env)
            == if !Reads(env, GetConfigMap, ConfigMapOwners(cluster, provider.spec.configMapName), provider)
               then (false, before)
               else
                 var (ready, recon) := PrepareRest(provider, cluster, before.GetOr(INITIAL), env);
                 (ready, Some(recon))
    ensures var (ready, recon) := PrepareRest(provider, cluster, before.GetOr(INITIAL), env);
            ready ==> NamesToCollect(provider.spec, recon) == NamesToCollect(provider.spec, before.GetOr(INITIAL))
  {
    hide Reads;
    var recon := before.GetOr(INITIAL);
    assert Reset(provider.spec, recon, cluster).secrets.Keys == if provider.spec.secret.None? then {}
           else recon.secrets.Keys;
  }

  method PrepareKnown(state: ReconciliationState, provider: Provider, env: Env, cluster: Cluster)
    returns (ready: bool, existing: map<string, SecretObject>)
    requires ListsKeys(env)
    modifies state, state.existingK8sSecrets
    ensures (ready, state.View()) == PrepareRest(provider, cluster, old(state.View()), env)
    ensures ready ==> Values(existing) == Live(cluster, NamesToCollect(provider.spec, old(state.View())))
    ensures state.existingK8sSecrets == old(state.existingK8sSecrets) || fresh(state.existingK8sSecrets)
  {
    hide SecretsRead, Reset, Values, Live, ReconciliationState.View;
    ghost var recon := state.View();
    var ok;
    ok, existing := CollectTrackedSecrets(state, provider, env, cluster);
    if !ok {
      return false, existing;
    }
    ghost var live := Values(existing);
    ResetState(state, provider, cluster, existing.Keys);
    ready := RenewClientManager(state, provider, env);
    assert Values(existing) == live;
  }

  // ---------------------------------------------------------------- the middle part

  /** Populates the settings and writes the ConfigMap. */
  method PopulateAndPut(p: AppConfigurationProviderProcessor, existing: map<string, SecretObject>) returns (ok: bool)
    requires p.Valid() && p.View() == StartRun(p.state.View(), p.client.cluster)
    requires Values(existing) == Live(p.client.cluster, NamesToCollect(p.provider.spec, p.state.View()))
    modifies p, p.client`cluster, p.client`trace, p.state
    ensures var s := State(p.provider, old(p.client.cluster), p.store, Some(old(p.state.View())), false);
            PopulateAndWrite(p.codec, s, p.env, old(p.state.View())) == if ok then Go(p.View()) else Stop(p.View())
    ensures ok ==> Consistent(p.options)
    ensures p.k8sSecrets == old(p.k8sSecrets) || fresh(p.k8sSecrets) || p.k8sSecrets == p.state.existingK8sSecrets
    ensures p.state.existingK8sSecrets == old(p.state.existingK8sSecrets)
  {
    hide PopulateSettings, WriteConfigMap, AppConfigurationProviderProcessor.View, Values, Live, Consistent;
    p.ViewFields();
    ghost var configMap := OptionalConfigMap(p.client.cluster, p.provider.spec.configMapName);
    PopulateIsConsistent(p.codec, p.provider, p.store, p.env, configMap, Values(existing), p.View());
    ok := p.Populate(OptionalConfigMap(p.client.cluster, p.provider.spec.configMapName), existing);
    p.ViewFields();
    if ok && p.options.configMapSettingPopulated {
      ghost var before := p.View();
      ok := CreateOrUpdateConfigMap(p);
      p.ViewFields();
      WriteKeepsOptions(p.codec, p.provider, p.env, before);
    }
  }

  lemma WriteKeepsOptions(c: Codec, provider: Provider, env: Env, run: Run)
    ensures WriteConfigMap(c, provider, env, run).run.options == run.options
  {
    hide ShouldCreateOrUpdateConfigMap;
  }

  /** Writes and deletes Secrets, then finishes. */
  method SyncAndFinish(p: AppConfigurationProviderProcessor, existing: map<string, Secret>) returns (outcome: Outcome)
    requires ListsKeys(p.env) && Consistent(p.options)
    requires p.options.secretSettingPopulated ==>
               p.provider.spec.secret.Some? && p.secretSettings.Keys == p.k8sSecrets.entries.Keys
    modifies p.client`cluster, p.client`trace, p.state, p.k8sSecrets
    ensures var synced := SyncSecrets(p.codec, p.provider, p.env, existing, old(p.View()));
            && !synced.Crash? && p.client.cluster == synced.run.cluster && p.client.trace == synced.run.trace
            && (p.state.View(), outcome)
               == if synced.Go? then Processor.Finish(p.provider, p.env, synced.run) else (synced.run.recon, Failed)
    ensures p.state.existingK8sSecrets == old(p.state.existingK8sSecrets) || p.state.existingK8sSecrets == p.k8sSecrets
  {
    hide SyncSecrets, AppConfigurationProviderProcessor.View, KeepsCore, Processor.Finish;
    ghost var before := p.View();
    p.ViewFields();
    var ok := Sync(p, existing);
    p.ViewFields();
    if !ok {
      return Failed;
    }
    SyncSecretsKeepsCore(p.codec, p.provider, p.env, existing, before);
    KeepsCoreOptions(before, p.View());
    var requeueAfter := p.Finish();
    return Done(requeueAfter);
  }

  // ---------------------------------------------------------------- the reconciler

  /** The reconciler of one provider: its state is there once the provider has been seen. */
  class AzureAppConfigurationProviderReconciler {
    const client: ClusterClient
    const codec: Codec
    var state: ReconciliationState?

    constructor (client: ClusterClient, codec: Codec)
      ensures this.client == client && this.codec == codec && StateView() == None
    {
      this.client, this.codec, this.state := client, codec, null;
    }

    function StateView(): Option<Recon>
      reads this, state, if state == null then {} else {state.existingK8sSecrets}
    {
      if state == null then None else Some(state.View())
    }

    ghost function Footprint(): set<object>
      reads this, state
    {
      if state == null then {this} else var known: ReconciliationState := state; {this, known, known.existingK8sSecrets}
    }

    method ReadConfigMap(provider: Provider, env: Env) returns (ok: bool)
      ensures ok == Reads(env, GetConfigMap, ConfigMapOwners(client.cluster, provider.spec.configMapName), provider)
    {
      var name := provider.spec.configMapName;
      if env.fault(GetConfigMap) != Fine {
        return false;
      }
      ok := true;
      if name in client.cluster.configMaps {
        ok := VerifyExistingTargetObject(client.cluster.configMaps[name].owners, provider);
      }
    }

    /** Reads what exists, and prepares the state. */
    method PrepareState(provider: Provider, env: Env) returns (ready: bool, existing: map<string, SecretObject>)
      requires ListsKeys(env)
      modifies Footprint()
      ensures (ready, StateView()) == Prepare(provider, client.cluster, old(StateView()), env)
      ensures ready ==>
                state != null && Values(existing) == Live(client.cluster, NamesToCollect(provider.spec, state.View()))
      ensures forall o :: o in Footprint() ==> o in old(Footprint()) || fresh(o)
    {
      hide Reads, PrepareRest, Prepare, Values, Live;
      PrepareInTwo(provider, client.cluster, StateView(), env);
      existing := map[];
      var read := ReadConfigMap(provider, env);
      if !read {
        return false, existing;
      }
      if state == null {
        state := new ReconciliationState();
      }
      ready, existing := PrepareKnown(state, provider, env, client.cluster);
    }

    /** One reconcile, of a provider for which the invariant holds. It never misses metadata. */
    method Reconcile(provider: Provider, ghost start: Store, store: Store, env: Env) returns (outcome: Outcome)
      requires Inverse(codec) && ValidEnv(env, start, store)
      requires Invariant(codec, false, State(provider, client.cluster, start, StateView(), client.running))
      modifies Footprint(), client
      ensures var s := State(provider, old(client.cluster), store, old(StateView()), old(client.running));
              var r := Reconciler.Reconcile(codec, s, env);
              && client.cluster == r.state.cluster && client.running == r.state.running && StateView() == r.state.recon
              && outcome == r.outcome && client.trace == r.trace
    {
      hide Prepare, PopulateAndWrite, SyncSecrets, Invariant, ReadyToSync, Prepared, Values, Live, KeepsCore,
           Consistent, AppConfigurationProviderProcessor.View, Processor.Finish;
      ghost var s := State(provider, client.cluster, start, StateView(), client.running);
      assert s.(store := store) == State(provider, client.cluster, store, StateView(), client.running);
      client.trace := [];
      if client.running {
        return Skipped;
      }
      if !ValidSpec(provider.spec) {
        return Rejected;
      }
      var ready, existing := PrepareState(provider, env);
      if !ready {
        return Failed;
      }
      MiddleFacts(codec, s, env, store, StateView());
      var p := new AppConfigurationProviderProcessor(provider, state, client, store, env, codec);
      ghost var recon := state.View();
      var ok := PopulateAndPut(p, existing);
      p.ViewFields();
      PopulateAndWriteIgnoresRecon(codec, s.(store := store), env, Some(recon));
      if !ok {
        client.running := p.panicked && env.fault(PatchStatus) != Lost;
        return if p.panicked then Panicked else Failed;
      }
      ghost var written := p.View();
      p.MetadataIs();
      CompleteWhenReady(s.(store := store, recon := Some(recon)), recon, written);
      outcome := SyncAndFinish(p, Values(existing));
    }
  }

  lemma CompleteWhenReady(s: State, recon: Recon, run: Run)
    requires ReadyToSync(s, recon, run)
    ensures run.options.secretSettingPopulated ==>
              s.provider.spec.secret.Some? && run.settings.secrets.Keys == MetadataOf(run).Keys
  {
  }
}
