/** From the settings of the store to the objects of the cluster: what a reconcile that is done
    leaves of each loaded setting. */
module EndToEnd {
  import opened Wrappers
  import opened TypedSetting
  import opened ReconcileTypes
  import opened Processor
  import opened Reconciler
  import opened NoLostUpdate
  import opened Convergence
  import opened Repair
  import opened Plans
  import opened Loads
  import Classification
  import SelectorMeaning
  import Selectors
  import SettingLoader

  /** A version of the store as classification makes it of what is loaded: the texts by key, the
      fields of a document whose keys are not split, and the references. */
  ghost predicate IsContentOf(c: Codec, options: Option<DataOptions>, raw: SettingLoader.Raw, content: Content) {
    && content.references == raw.secrets
    && (forall k :: k in content.settings.plain <==> k in raw.keyValues && raw.keyValues[k].Some?)
    && (forall k :: k in content.settings.plain ==> raw.keyValues[k] == Some(content.settings.plain[k]))
    && (content.settings.fields == map[] <==> raw.keyValues == map[])
    && (IsDocument(options) && options.value.separator.None? ==>
          && content.settings.fields.Keys == raw.keyValues.Keys
          && forall k :: k in raw.keyValues ==>
               content.settings.fields[k] == ParsedValue(c, raw.keyValues[k], k in raw.isJson && raw.isJson[k]))
  }

  /** The selectors of the provider are loaded at the version that the reconcile fetches, and come to
      the given settings once snapshot references are replaced. */
  ghost predicate Fetches(c: Codec, loading: SettingLoader.Context, query: SelectorMeaning.Answering,
                          selectors: seq<Selectors.Selector>, s: State, env: Env, store: Store,
                          all: seq<SettingLoader.Setting>)
    requires ValidEnv(env, s.store, store)
  {
    var spec, settings := s.provider.spec, SelectorMeaning.LoadAll(loading, query, selectors);
    var raw := SelectorMeaning.CreateRaw(loading, query, selectors);
    && loading.secretTarget == (if spec.secret.Some? then Some(spec.secret.value.target) else None)
    && settings.Success? && Classification.Unfolded(loading, settings.value) == Some(all)
    && raw.Success? && IsContentOf(c, spec.configMapData, raw.value, store.keyValues[env.keyValuesFetched])
  }

  /** The reconcile is done, and has loaded key-values, in full or because they have changed. */
  ghost predicate HasLoaded(c: Codec, s: State, env: Env, store: Store)
    requires ValidEnv(env, s.store, store)
  {
    && Reconcile(c, s.(store := store), env).outcome.Done?
    && (!InStep(s) || KeyValuesReload(s.provider.spec, store, s.recon.GetOr(INITIAL), env))
  }

  // ---------------------------------------------------------------- key-values

  /** With default data, the ConfigMap has under each key the value of the last plain setting with
      that key, unless that has no value, and nothing under any other key. */
  ghost predicate MapHasSetting(loading: SettingLoader.Context, all: seq<SettingLoader.Setting>, data: Data,
                                k: string) {
    && (forall i: nat :: Classification.LastPlain(loading, all, i, k) ==>
          (k in data <==> all[i].value.Some?) && (k in data ==> all[i].value == Some(data[k])))
    && ((forall i :: 0 <= i < |all| ==> !Classification.IsPlain(loading, all[i], k)) ==> k !in data)
  }

  lemma SettingsReachTheConfigMap(c: Codec, loading: SettingLoader.Context, query: SelectorMeaning.Answering,
                                  selectors: seq<Selectors.Selector>, s: State, env: Env, store: Store,
                                  all: seq<SettingLoader.Setting>, k: string)
    requires Inverse(c) && Invariant(c, false, s) && ValidEnv(env, s.store, store) && HasLoaded(c, s, env, store)
    requires Fetches(c, loading, query, selectors, s, env, store, all)
    requires s.provider.spec.configMapData.None? || s.provider.spec.configMapData.value.kind == Default
    ensures var name, after := s.provider.spec.configMapName, Reconcile(c, s.(store := store), env).state.cluster;
            name in after.configMaps && MapHasSetting(loading, all, after.configMaps[name].data, k)
  {
    hide Reconcile, Invariant, InStep, KeyValuesReload, Classification.IsPlain;
    var v, w := LastStoodFor(c, s);
    DoneMeansValid(c, s, env, store);
    DoneShows(c, s, env, store, v, w);
    Classification.CreatedExactly(loading, query, selectors, k, k);
  }

  lemma LastStoodFor(c: Codec, s: State) returns (v: nat, w: nat)
    requires Invariant(c, false, s)
    ensures InStep(s) ==> StandsFor(c, s.provider.spec, s.cluster, s.store, v, w)
  {
    v, w := 0, 0;
    if InStep(s) {
      assert Matches(s);
      v, w :| StandsFor(c, s.provider.spec, s.cluster, s.store, v, w)
              && AllAtMost(false, s.recon.value, s.provider.spec, s.store, v, w);
    }
  }

  /** With a document whose keys are not split, the document in the ConfigMap has under each key what
      the last plain setting with that key contributes, and nothing under any other key, but for the
      section of the feature flags. */
  ghost predicate DocumentHasSetting(c: Codec, loading: SettingLoader.Context, all: seq<SettingLoader.Setting>,
                                     doc: Fields, k: string)
  {
    && (forall i: nat :: Classification.LastPlain(loading, all, i, k) ==>
          k in doc
          && doc[k] == ParsedValue(c, all[i].value, all[i].contentType == Some(SettingLoader.Other(true))))
    && ((forall i :: 0 <= i < |all| ==> !Classification.IsPlain(loading, all[i], k)) ==> k !in doc)
  }

  lemma SettingsReachTheDocument(c: Codec, loading: SettingLoader.Context, query: SelectorMeaning.Answering,
                                 selectors: seq<Selectors.Selector>, s: State, env: Env, store: Store,
                                 all: seq<SettingLoader.Setting>, k: string)
    requires Inverse(c) && Invariant(c, false, s) && ValidEnv(env, s.store, store) && HasLoaded(c, s, env, store)
    requires Fetches(c, loading, query, selectors, s, env, store, all)
    requires IsDocument(s.provider.spec.configMapData) && s.provider.spec.configMapData.value.separator.None?
    requires k != "feature_management"
    ensures var options, name := s.provider.spec.configMapData.value, s.provider.spec.configMapName;
            var after := Reconcile(c, s.(store := store), env).state.cluster;
            && name in after.configMaps
            && DocumentHasSetting(c, loading, all, ParsedAt(c, after.configMaps[name].data, options).GetOr(map[]), k)
  {
    hide Reconcile, Invariant, InStep, KeyValuesReload, Classification.IsPlain, ParsedValue;
    var v, w := LastStoodFor(c, s);
    DoneShows(c, s, env, store, v, w);
    Classification.CreatedExactly(loading, query, selectors, k, k);
  }

  // ---------------------------------------------------------------- references

  predicate ReferenceIsThere(loading: SettingLoader.Context, env: Env, target: string, s: SettingLoader.Setting,
                             secrets: map<string, Secret>, k: string, name: string)
  {
    var metadata := loading.parseReference(s.value.GetOr(""));
    && metadata.Some? && name in secrets
    && if name == target then
         && (k in secrets[name].data <==> env.vault(metadata.value).Some?)
         && (k in secrets[name].data ==> env.vault(metadata.value) == Some(secrets[name].data[k]))
       else
         && "tls.key" in secrets[name].data && "tls.crt" in secrets[name].data
         && env.certificate(metadata.value) == (secrets[name].data["tls.key"], secrets[name].data["tls.crt"])
  }

  /** With default data, the target has under each key the value of the last reference with that key
      and without a tag, if Key Vault has one, and nothing under any other key; a tagged reference
      leads to the certificate in the Secret of its own name. */
  ghost predicate SecretsHaveReference(loading: SettingLoader.Context, env: Env, target: string,
                                       all: seq<SettingLoader.Setting>, secrets: map<string, Secret>, k: string,
                                       name: string)
  {
    && target in secrets
    && (forall i: nat :: Classification.LastReference(loading, all, i, k, name) ==>
          ReferenceIsThere(loading, env, target, all[i], secrets, k, name))
    && ((forall i :: 0 <= i < |all| ==> !Classification.GoesTo(loading, all[i], k, target)) ==>
          k !in secrets[target].data)
  }

  /** What is due to the target with default data, entry by entry. */
  lemma TargetHas(c: Codec, env: Env, spec: Spec, references: map<string, SettingLoader.TargetSecret>, after: Recon,
                  cluster: Cluster, k: string)
    requires spec.secret.Some? && AsSelected(c, spec, env, references, after, cluster, spec.secret.value.target)
    requires spec.secret.value.secretData.None? || spec.secret.value.secretData.value.kind == Default
    ensures var target := spec.secret.value.target;
            && target in cluster.secrets
            && (target in references ==>
                  var data, due := cluster.secrets[target].data, references[target].references;
                  && (k in data <==> k in due && env.vault(due[k]).Some?)
                  && (k in data ==> env.vault(due[k]) == Some(data[k])))
            && (target !in references ==> k !in cluster.secrets[target].data)
  {
    var target := spec.secret.value.target;
    var t, data := after.secrets[target], cluster.secrets[target].data;
    assert HoldsReferences(c, env, spec.secret.value.secretData, target, t, data);
    var values :| AreValues(env, t.references, values)
                  && HoldsValues(c, env, spec.secret.value.secretData, values, data);
    assert data == values;
  }

  /** What is due to a Secret for a certificate. */
  lemma CertificateHas(c: Codec, env: Env, spec: Spec, references: map<string, SettingLoader.TargetSecret>,
                       after: Recon, cluster: Cluster, n: string)
    requires spec.secret.Some? && AsSelected(c, spec, env, references, after, cluster, n)
    requires n in references && n != spec.secret.value.target && references[n].kind == SettingLoader.TLS
    ensures n in cluster.secrets
    ensures n in references[n].references ==>
              var data := cluster.secrets[n].data;
              && "tls.key" in data && "tls.crt" in data
              && env.certificate(references[n].references[n]) == (data["tls.key"], data["tls.crt"])
  {
  }

  lemma ReferencesReachTheSecrets(c: Codec, loading: SettingLoader.Context, query: SelectorMeaning.Answering,
                                  selectors: seq<Selectors.Selector>, s: State, env: Env, store: Store,
                                  all: seq<SettingLoader.Setting>, k: string, name: string)
    requires Inverse(c) && Invariant(c, false, s) && ValidEnv(env, s.store, store) && HasLoaded(c, s, env, store)
    requires Fetches(c, loading, query, selectors, s, env, store, all) && s.provider.spec.secret.Some?
    requires s.provider.spec.secret.value.secretData.None?
             || s.provider.spec.secret.value.secretData.value.kind == Default
    ensures SecretsHaveReference(loading, env, s.provider.spec.secret.value.target, all,
                                 Reconcile(c, s.(store := store), env).state.cluster.secrets, k, name)
  {
    hide Reconcile, Invariant, InStep, KeyValuesReload, AsSelected, SelectorMeaning.CreateRaw, Classification.AllValid;
    var spec, r := s.provider.spec, Reconcile(c, s.(store := store), env).state;
    var target, references := spec.secret.value.target, store.keyValues[env.keyValuesFetched].references;
    LoadLeavesSecrets(c, s, env, store, target);
    LoadLeavesSecrets(c, s, env, store, name);
    Classification.CreatedExactly(loading, query, selectors, k, name);
    Classification.CreatedExactly(loading, query, selectors, k, target);
    TargetHas(c, env, spec, references, r.recon.value, r.cluster, k);
    var raw := SelectorMeaning.CreateRaw(loading, query, selectors).value;
    CollectedReach(c, loading, env, spec, all, raw, r.recon.value, r.cluster, k, name);
  }

  ghost predicate IsCollected(loading: SettingLoader.Context, all: seq<SettingLoader.Setting>, raw: SettingLoader.Raw,
                            k: string, name: string)
  {
    var before := Classification.OnlyTarget(loading);
    && Classification.LastIsCollected(loading, before, raw, all, k, name)
    && Classification.TypesAreCollected(loading, before, raw, all, name)
  }

  /** Where the last reference with a key ends up. */
  lemma LastIsThere(loading: SettingLoader.Context, all: seq<SettingLoader.Setting>, raw: SettingLoader.Raw, i: nat,
                    k: string, name: string)
    requires IsCollected(loading, all, raw, k, name) && Classification.LastReference(loading, all, i, k, name)
    ensures var metadata := loading.parseReference(all[i].value.GetOr(""));
            && metadata.Some? && name in raw.secrets && k in raw.secrets[name].references
            && raw.secrets[name].references[k] == metadata.value
    ensures loading.secretTarget != Some(name) ==> raw.secrets[name].kind == SettingLoader.TLS && name == k
  {
    assert Classification.IsCollectedAs(loading, raw, all[i], k, name);
  }

  lemma CollectedReach(c: Codec, loading: SettingLoader.Context, env: Env, spec: Spec, all: seq<SettingLoader.Setting>,
                       raw: SettingLoader.Raw, after: Recon, cluster: Cluster, k: string, name: string)
    requires spec.secret.Some? && loading.secretTarget == Some(spec.secret.value.target)
    requires spec.secret.value.secretData.None? || spec.secret.value.secretData.value.kind == Default
    requires AsSelected(c, spec, env, raw.secrets, after, cluster, spec.secret.value.target)
    requires AsSelected(c, spec, env, raw.secrets, after, cluster, name)
    requires IsCollected(loading, all, raw, k, name) && IsCollected(loading, all, raw, k, spec.secret.value.target)
    ensures SecretsHaveReference(loading, env, spec.secret.value.target, all, cluster.secrets, k, name)
  {
    hide AsSelected;
    var target := spec.secret.value.target;
    TargetHas(c, env, spec, raw.secrets, after, cluster, k);
    forall i: nat | Classification.LastReference(loading, all, i, k, name)
      ensures ReferenceIsThere(loading, env, target, all[i], cluster.secrets, k, name)
    {
      LastIsThere(loading, all, raw, i, k, name);
      if name != target {
        CertificateHas(c, env, spec, raw.secrets, after, cluster, name);
      }
    }
    assert Classification.SameReference(Classification.OnlyTarget(loading), raw, k, target)
           || exists i :: 0 <= i < |all| && Classification.GoesTo(loading, all[i], k, target);
  }
}
