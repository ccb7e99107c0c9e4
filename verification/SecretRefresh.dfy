/** The refresh of Key Vault references: what it resolves, what it lays over the live Secrets,
    and what a reconcile that populated Secrets leaves in the cluster. */
module SecretRefresh {
  import opened Clock
  import opened Wrappers
  import opened TypedSetting
  import opened ReconcileTypes
  import opened Processor
  import opened Reconciler
  import opened NoLostUpdate
  import opened SecretSync
  import opened SecretGuarantees
  import opened Deadlines
  import opened Convergence
  import SettingLoader

  // ---------------------------------------------------------------- the overlay

  predicate DefaultData(spec: Spec) {
    SecretOptions(spec).None? || SecretOptions(spec).value.kind == Default
  }

  /** Resolved again are exactly the references that name no version. */
  lemma ResolvesExactlyUnversioned(tracked: map<string, Tracked>, n: string, k: string)
    ensures n in ToResolve(tracked) && k in ToResolve(tracked)[n].references
            <==> n in tracked && k in tracked[n].references && tracked[n].references[k].secretVersion == ""
    ensures n in ToResolve(tracked) && k in ToResolve(tracked)[n].references ==>
              ToResolve(tracked)[n].references[k] == tracked[n].references[k]
              && ToResolve(tracked)[n].kind == tracked[n].kind
  {
    if n in tracked {
      assert k in Unversioned(tracked[n]) <==>
               k in tracked[n].references && tracked[n].references[k].secretVersion == "";
    }
  }

  /** The entry of a Secret that a refresh renews: a reference without a version for which Key
      Vault has a value. */
  predicate IsRenewed(env: Env, t: Tracked, k: string) {
    k in t.references && t.references[k].secretVersion == "" && env.vault(t.references[k]).Some?
  }

  /** The data has the value at k iff the other has, and the same. */
  predicate SameEntry(a: Data, b: Data, k: string) {
    (k in a <==> k in b) && (k in a ==> a[k] == b[k])
  }

  /** With default data, a refresh keeps the set of Secrets, renews exactly the entries whose
      reference names no version, and keeps every other entry byte for byte. */
  lemma OverlayIsExact(c: Codec, spec: Spec, env: Env, tracked: map<string, Tracked>, existing: map<string, Secret>,
                       n: string, k: string)
    requires DefaultData(spec) && n in existing && n in tracked && tracked[n].kind == SettingLoader.Opaque
    ensures var refreshed := RefreshedSecrets(c, spec, env, tracked, existing);
            && refreshed.Keys == existing.Keys
            && (if IsRenewed(env, tracked[n], k)
                then k in refreshed[n].data && refreshed[n].data[k] == env.vault(tracked[n].references[k]).value
                else SameEntry(refreshed[n].data, existing[n].data, k))
  {
    ResolvesExactlyUnversioned(tracked, n, k);
    var resolved := Resolved(c, env, SecretOptions(spec), ToResolve(tracked));
    if n in ToResolve(tracked) {
      var t := ToResolve(tracked)[n];
      assert n in resolved && resolved[n].data == ResolvedData(c, env, SecretOptions(spec), n, t);
      DefaultDataIsValues(c, env, SecretOptions(spec), n, t, k);
    }
  }

  /** With default data, an Opaque Secret holds the values of its references. */
  lemma DefaultDataIsValues(c: Codec, env: Env, options: Option<DataOptions>, n: string, t: Tracked, k: string)
    requires t.kind == SettingLoader.Opaque && (options.None? || options.value.kind == Default)
    ensures var data := ResolvedData(c, env, options, n, t);
            && (k in data <==> k in t.references && env.vault(t.references[k]).Some?)
            && (k in data ==> data[k] == env.vault(t.references[k]).value)
  {
  }

  /** The certificate of a TLS Secret is a reference of the Secret's own name. */
  predicate CertificateIsRenewed(t: Tracked, n: string) {
    n in t.references && t.references[n].secretVersion == ""
  }

  function Certificate(env: Env, n: string, t: Tracked): Data
    requires n in t.references
  {
    map[TLS_KEY := env.certificate(t.references[n]).0, TLS_CRT := env.certificate(t.references[n]).1]
  }

  /** A TLS Secret is renewed as a whole iff its reference names no version. */
  lemma TlsOverlayIsWhole(c: Codec, spec: Spec, env: Env, tracked: map<string, Tracked>, existing: map<string, Secret>,
                          n: string)
    requires n in existing && n in tracked && tracked[n].kind != SettingLoader.Opaque
    ensures RefreshedSecrets(c, spec, env, tracked, existing)[n].data
            == if CertificateIsRenewed(tracked[n], n) then existing[n].data + Certificate(env, n, tracked[n])
              else existing[n].data
  {
    ResolvesExactlyUnversioned(tracked, n, n);
    var resolved := Resolved(c, env, SecretOptions(spec), ToResolve(tracked));
    if n in ToResolve(tracked) {
      assert resolved[n].data == ResolvedData(c, env, SecretOptions(spec), n, ToResolve(tracked)[n]);
    }
  }

  // ---------------------------------------------------------------- documents

  /** The values of the references, of those without a version and of all. */
  function UnversionedValues(env: Env, t: Tracked): Data { AllValues(env, t.(references := Unversioned(t))) }

  function AllValues(env: Env, t: Tracked): Data {
    map k | k in t.references && env.vault(t.references[k]).Some? :: env.vault(t.references[k]).value
  }

  lemma UnversionedValuesAre(env: Env, t: Tracked, k: string)
    ensures k in UnversionedValues(env, t) <==> IsRenewed(env, t, k)
    ensures k in UnversionedValues(env, t) ==> UnversionedValues(env, t)[k] == env.vault(t.references[k]).value
    ensures k in UnversionedValues(env, t) ==>
              k in AllValues(env, t) && AllValues(env, t)[k] == UnversionedValues(env, t)[k]
  {
    assert k in Unversioned(t) <==> k in t.references && t.references[k].secretVersion == "";
  }

  /** A refresh lays what only the unversioned values make over the live data: with json, yaml
      or properties, a document without the others. */
  lemma OverlayIsOfUnversioned(c: Codec, spec: Spec, env: Env, tracked: map<string, Tracked>,
                               existing: map<string, Secret>,
                               n: string)
    requires n in existing && n in tracked && tracked[n].kind == SettingLoader.Opaque
    ensures RefreshedSecrets(c, spec, env, tracked, existing)[n].data
            == existing[n].data + TypedSecrets(c, env, UnversionedValues(env, tracked[n]), SecretOptions(spec))
  {
    var resolved := Resolved(c, env, SecretOptions(spec), ToResolve(tracked));
    if n in ToResolve(tracked) {
      assert ToResolve(tracked)[n] == tracked[n].(references := Unversioned(tracked[n]), version := None);
      assert AllValues(env, ToResolve(tracked)[n]) == UnversionedValues(env, tracked[n]);
      assert resolved[n].data == ResolvedData(c, env, SecretOptions(spec), n, ToResolve(tracked)[n]);
    } else {
      assert UnversionedValues(env, tracked[n]) == map[];
    }
  }

  /** The values, if they are different, make different data. */
  predicate Separates(c: Codec, env: Env, options: Option<DataOptions>, a: Data, b: Data) {
    TypedSecrets(c, env, a, options) == TypedSecrets(c, env, b, options) ==> a == b
  }

  lemma OneEntry(c: Codec, env: Env, values: Data, options: Option<DataOptions>)
    requires values != map[] && options.Some? && options.value.kind != Default
    ensures var data := TypedSecrets(c, env, values, options);
            options.value.key in data && data == map[options.value.key := data[options.value.key]]
  {
  }

  /** Reading back a document of values, whatever lies under it. */
  lemma ParsedDocument(c: Codec, env: Env, values: Data, options: Option<DataOptions>, under: Data)
    requires Inverse(c) && IsDocument(options) && values != map[]
    ensures TypedSecrets(c, env, values, options) != map[]
    ensures ParsedAt(c, TypedSecrets(c, env, values, options), options.value) == Some(env.secretFields(values))
    ensures ParsedAt(c, under + TypedSecrets(c, env, values, options), options.value) == Some(env.secretFields(values))
  {
    var o := options.value;
    assert TypedSecrets(c, env, values, options) == map[o.key := c.print_(o.kind, env.secretFields(values))];
    assert o.key in TypedSecrets(c, env, values, options);
  }

  /** For json and yaml that is so exactly when they are different documents, or only one of
      them is empty. */
  lemma DocumentsSeparateExactly(c: Codec, env: Env, options: Option<DataOptions>, a: Data, b: Data)
    requires Inverse(c) && IsDocument(options)
    ensures Separates(c, env, options, a, b) <==>
              a == b || a == map[] || b == map[] || env.secretFields(a) != env.secretFields(b)
  {
    if a != map[] {
      ParsedDocument(c, env, a, options, map[]);
    }
    if b != map[] {
      ParsedDocument(c, env, b, options, map[]);
    }
  }

  /** With json, yaml or properties, a refresh that renews anything leaves the document of all
      references exactly when every reference with a value names no version; otherwise it
      drops the version-pinned values. One that renews nothing leaves the data alone. */
  lemma DocumentIsFullExactly(c: Codec, spec: Spec, env: Env, tracked: map<string, Tracked>,
                              existing: map<string, Secret>,
                              n: string)
    requires !DefaultData(spec) && n in existing && n in tracked && tracked[n].kind == SettingLoader.Opaque
    requires Separates(c, env, SecretOptions(spec), UnversionedValues(env, tracked[n]), AllValues(env, tracked[n]))
    ensures var key, t := SecretOptions(spec).value.key, tracked[n];
            var data, full :=
              RefreshedSecrets(c, spec, env, tracked, existing)[n].data,
                ResolvedData(c, env, SecretOptions(spec), n, t);
            if UnversionedValues(env, t) == map[] then data == existing[n].data
            else
              && key in data && key in full
              && (data[key] == full[key] <==> forall k ::
                    k in AllValues(env, t) ==> t.references[k].secretVersion == "")
  {
    hide RefreshedSecrets, TypedSecrets, IsRenewed, UnversionedValues, AllValues;
    var t, options := tracked[n], SecretOptions(spec);
    var some, all := UnversionedValues(env, t), AllValues(env, t);
    OverlayIsOfUnversioned(c, spec, env, tracked, existing, n);
    FullDataIs(c, env, options, n, t);
    if some == map[] {
      assert TypedSecrets(c, env, some, options) == map[] by { NoValuesNoData(c, env, options); }
    } else {
      UnversionedIsAllExactly(env, t);
      OneEntry(c, env, some, options);
      OneEntry(c, env, all, options);
    }
  }

  lemma NoValuesNoData(c: Codec, env: Env, options: Option<DataOptions>)
    ensures TypedSecrets(c, env, map[], options) == map[]
  {
  }

  lemma FullDataIs(c: Codec, env: Env, options: Option<DataOptions>, n: string, t: Tracked)
    requires t.kind == SettingLoader.Opaque
    ensures ResolvedData(c, env, options, n, t) == TypedSecrets(c, env, AllValues(env, t), options)
  {
  }

  lemma UnversionedIsAllExactly(env: Env, t: Tracked)
    ensures forall k :: k in AllValues(env, t) ==> k in t.references
    ensures UnversionedValues(env, t) == AllValues(env, t)
            <==> forall k :: k in AllValues(env, t) ==> t.references[k].secretVersion == ""
    ensures UnversionedValues(env, t) != map[] ==> AllValues(env, t) != map[]
  {
    var some, all := UnversionedValues(env, t), AllValues(env, t);
    forall k
      ensures k in some <==> IsRenewed(env, t, k)
      ensures k in some ==> k in all && all[k] == some[k]
    {
      UnversionedValuesAre(env, t, k);
    }
    if some != map[] {
      var k :| k in some;
      assert k in all;
    }
    if some == all {
      assert forall k :: k in all ==> k in some;
    }
  }

  /** A target with a pinned and an unversioned reference, in a document with a field per
      reference: a refresh drops the pinned one. */
  lemma PinnedValueIsDropped(c: Codec, spec: Spec, env: Env, t: Tracked, live: Secret, n: string)
    requires Inverse(c) && IsDocument(SecretOptions(spec)) && t.kind == SettingLoader.Opaque
    requires forall values: Data :: env.secretFields(values).Keys == values.Keys
    requires t.references.Keys == {"pinned", "latest"}
    requires t.references["pinned"].secretVersion != "" && t.references["latest"].secretVersion == ""
    requires env.vault(t.references["pinned"]).Some? && env.vault(t.references["latest"]).Some?
    requires live.data == ResolvedData(c, env, SecretOptions(spec), n, t)
    ensures var before := ParsedAt(c, live.data, SecretOptions(spec).value);
            var after := ParsedAt(c, RefreshedSecrets(c, spec, env, map[n := t], map[n := live])[n].data,
                                  SecretOptions(spec).value);
            && before.Some? && before.value.Keys == {"pinned", "latest"}
            && after.Some? && after.value.Keys == {"latest"}
  {
    hide RefreshedSecrets, TypedSecrets, ResolvedData, UnversionedValues, AllValues;
    var options := SecretOptions(spec);
    OverlayIsOfUnversioned(c, spec, env, map[n := t], map[n := live], n);
    FullDataIs(c, env, options, n, t);
    TwoValues(env, t);
    ParsedDocument(c, env, AllValues(env, t), options, map[]);
    ParsedDocument(c, env, UnversionedValues(env, t), options, live.data);
  }

  lemma TwoValues(env: Env, t: Tracked)
    requires t.references.Keys == {"pinned", "latest"}
    requires t.references["pinned"].secretVersion != "" && t.references["latest"].secretVersion == ""
    requires env.vault(t.references["pinned"]).Some? && env.vault(t.references["latest"]).Some?
    ensures AllValues(env, t).Keys == {"pinned", "latest"} && AllValues(env, t) != map[]
    ensures UnversionedValues(env, t).Keys == {"latest"} && UnversionedValues(env, t) != map[]
  {
    assert "pinned" in t.references.Keys && "latest" in t.references.Keys;
    forall k
      ensures k in UnversionedValues(env, t) <==> k == "latest"
    {
      UnversionedValuesAre(env, t, k);
      assert k in t.references <==> k in t.references.Keys;
    }
    assert "latest" in UnversionedValues(env, t) && "latest" in AllValues(env, t);
  }

  /** A refresh has something to write into the Secret. */
  predicate IsRenewedAtAll(env: Env, t: Tracked, n: string) {
    if t.kind == SettingLoader.Opaque then UnversionedValues(env, t) != map[] else CertificateIsRenewed(t, n)
  }

  /** A live Secret without data, of which something is to be renewed. */
  predicate RenewsIntoNil(env: Env, tracked: map<string, Tracked>, existing: map<string, Secret>) {
    exists n :: n in existing && existing[n].data == map[] && n in tracked && IsRenewedAtAll(env, tracked[n], n)
  }

  /** A due refresh fails exactly when its call does, and panics exactly when a live Secret
      without data has something to be renewed. */
  lemma RefreshFailsExactly(c: Codec, spec: Spec, env: Env, existing: map<string, Secret>, due: Time, run: Run)
    ensures var step := DueSecretRefresh(c, spec, env, existing, due, run);
            && !step.Crash?
            && (step.Stop? <==> env.fault(ResolveSecretReferences) != Fine || RenewsIntoNil(env, run.recon.secrets,
                existing))
            && (step.run.panicked <==>
                  run.panicked || (env.fault(ResolveSecretReferences) == Fine
                                   && RenewsIntoNil(env, run.recon.secrets, existing)))
  {
    hide IsRenewedAtAll, Resolved, ToResolve, RefreshedSecrets;
    var tracked := run.recon.secrets;
    var resolved := Resolved(c, env, SecretOptions(spec), ToResolve(tracked));
    forall n
      ensures n in resolved && resolved[n].data != map[] <==> n in tracked && IsRenewedAtAll(env, tracked[n], n)
    {
      ResolvesSomethingExactly(c, spec, env, tracked, n);
    }
  }

  lemma ResolvesSomethingExactly(c: Codec, spec: Spec, env: Env, tracked: map<string, Tracked>, n: string)
    ensures var resolved := Resolved(c, env, SecretOptions(spec), ToResolve(tracked));
            n in resolved && resolved[n].data != map[] <==> n in tracked && IsRenewedAtAll(env, tracked[n], n)
  {
    hide TypedSecrets;
    var resolved := Resolved(c, env, SecretOptions(spec), ToResolve(tracked));
    assert resolved.Keys == ToResolve(tracked).Keys;
    ResolvesExactlyUnversioned(tracked, n, n);
    if n in ToResolve(tracked) {
      var t := ToResolve(tracked)[n];
      assert resolved[n].data == ResolvedData(c, env, SecretOptions(spec), n, t);
      assert AllValues(env, t) == UnversionedValues(env, tracked[n]);
      if t.kind == SettingLoader.Opaque {
        FullDataIs(c, env, SecretOptions(spec), n, t);
        SomeValuesSomeData(c, env, AllValues(env, t), SecretOptions(spec));
      } else if n in t.references {
        assert TLS_KEY in resolved[n].data;
      }
    } else if n in tracked {
      assert Unversioned(tracked[n]) == map[];
      assert UnversionedValues(env, tracked[n]) == map[];
    }
  }

  lemma SomeValuesSomeData(c: Codec, env: Env, values: Data, options: Option<DataOptions>)
    ensures TypedSecrets(c, env, values, options) == map[] <==> values == map[]
  {
    if values != map[] && options.Some? && options.value.kind != Default {
      OneEntry(c, env, values, options);
    }
  }

  // ---------------------------------------------------------------- what is populated

  /** The Secrets of a load of the current references. */
  ghost predicate IsLoaded(c: Codec, s: State, env: Env, run: Run)
    requires env.keyValuesFetched < |s.store.keyValues|
  {
    var metadata := SelectedMetadata(s.provider.spec, s.store.keyValues[env.keyValuesFetched].references);
    run.settings.secrets == Resolved(c, env, SecretOptions(s.provider.spec), metadata)
    && run.settings.metadata == Own(metadata)
  }

  ghost predicate IsRefreshed(c: Codec, s: State, env: Env, recon: Recon, run: Run) {
    && run.settings.secrets == RefreshedSecrets(c, s.provider.spec, env, recon.secrets, Existing(s, recon))
    && run.settings.metadata == Shared
  }

  /** Populated Secrets are those of a load, or else of a refresh that was due; a full load
      populates them, and so does a refresh that is due. */
  ghost predicate Sourced(c: Codec, s: State, env: Env, recon: Recon, run: Run)
    requires env.keyValuesFetched < |s.store.keyValues|
  {
    var spec := s.provider.spec;
    && (run.options.secretSettingPopulated ==>
          spec.secret.Some? && (IsLoaded(c, s, env, run)
                                || (!run.shouldReconcile && IsRefreshed(c, s, env, recon, run))))
    && (run.shouldReconcile && spec.secret.Some? ==> run.options.secretSettingPopulated)
  }

  lemma FullIsSourced(c: Codec, s: State, env: Env, recon: Recon, run: Run)
    requires env.keyValuesFetched < |s.store.keyValues| && env.featureFlagsFetched < |s.store.featureFlags|
    requires run.shouldReconcile
    ensures var step := FullReconciliation(c, s.provider, s.store, env, run);
            step.Go? ==> Sourced(c, s, env, recon, step.run) && step.run.shouldReconcile
  {
    hide Typed, Resolved, SelectedMetadata, RefreshedSecrets;
  }

  lemma FeatureFlagsKeepSourced(c: Codec, s: State, env: Env, recon: Recon, data: Data, run: Run)
    requires ValidSpec(s.provider.spec) && env.keyValuesFetched < |s.store.keyValues|
             && env.featureFlagsFetched < |s.store.featureFlags|
    requires Sourced(c, s, env, recon, run) && (!run.shouldReconcile ==> !run.options.secretSettingPopulated)
    ensures var step := FeatureFlagRefresh(c, s.provider, s.store, env, data, run);
            step.Go? ==> Sourced(c, s, env, recon, step.run) && (!run.shouldReconcile ==>
                                                                   !step.run.options.secretSettingPopulated)
  {
    hide RefreshFeatureFlags, Resolved, SelectedMetadata, RefreshedSecrets;
  }

  /** The parts of a run that Sourced speaks about are the same. */
  predicate SameSource(a: Run, b: Run) {
    && a.settings == b.settings && a.shouldReconcile == b.shouldReconcile
    && a.options.secretSettingPopulated == b.options.secretSettingPopulated
  }

  lemma SameSourceIsSourced(c: Codec, s: State, env: Env, recon: Recon, before: Run, after: Run)
    requires env.keyValuesFetched < |s.store.keyValues|
    requires Sourced(c, s, env, recon, before) && SameSource(after, before)
    ensures Sourced(c, s, env, recon, after)
  {
    hide Resolved, SelectedMetadata, RefreshedSecrets;
  }

  lemma ReloadIsSourced(c: Codec, s: State, env: Env, recon: Recon, data: Data, due: Time, run: Run)
    requires ValidSpec(s.provider.spec) && env.keyValuesFetched < |s.store.keyValues|
    requires Sourced(c, s, env, recon, run)
    ensures var step := ReloadKeyValues(c, s.provider.spec, s.store, env, data, due, run);
            step.Go? ==> Sourced(c, s, env, recon, step.run)
  {
    hide RefreshKeyValues, Resolved, SelectedMetadata, RefreshedSecrets, Loadable;
  }

  lemma DueKeyValuesKeepSourced(c: Codec, s: State, env: Env, recon: Recon, data: Data, due: Time, run: Run)
    requires ValidSpec(s.provider.spec) && env.keyValuesFetched < |s.store.keyValues|
    requires Sourced(c, s, env, recon, run)
    ensures var step := DueKeyValueRefresh(c, s.provider.spec, s.store, env, data, due, run);
            step.Go? ==> Sourced(c, s, env, recon, step.run)
  {
    hide ReloadKeyValues, Sourced;
    var spec := s.provider.spec;
    var called := Called(run, if spec.monitoring then CheckSentinels else CheckKeyValueETags);
    var checked := CheckedOptions(spec, s.store, env, run.recon, run.options);
    if !checked.sentinelChanged && !checked.keyValuePageETagsChanged {
      SameSourceIsSourced(c, s, env, recon, run, NextKeyValue(WithOptions(called, checked), due));
    } else {
      var next := Called(WithOptions(called, checked), RefreshKeyValueSettings);
      SameSourceIsSourced(c, s, env, recon, run, next);
      ReloadIsSourced(c, s, env, recon, run.settings.configMap.GetOr(data), due, next);
    }
  }

  lemma KeyValuesKeepSourced(c: Codec, s: State, env: Env, recon: Recon, data: Data, run: Run)
    requires ValidSpec(s.provider.spec) && env.keyValuesFetched < |s.store.keyValues|
    requires Sourced(c, s, env, recon, run)
    ensures var step := KeyValueRefresh(c, s.provider, s.store, env, data, run);
            step.Go? ==> Sourced(c, s, env, recon, step.run)
  {
    hide DueKeyValueRefresh, Sourced;
    var spec := s.provider.spec;
    var due := DeadlineAfter(env, spec.keyValueRefresh);
    var enabled := WithOptions(run, run.options.(keyValueRefreshEnabled := true));
    if !KeyValueRefreshEnabled(spec) {
      SameSourceIsSourced(c, s, env, recon, run, NextKeyValue(run, 0));
    } else {
      SameSourceIsSourced(c, s, env, recon, run, enabled);
      SameSourceIsSourced(c, s, env, recon, run, NextKeyValue(enabled, due));
      DueKeyValuesKeepSourced(c, s, env, recon, data, due, enabled);
    }
  }

  lemma SecretsKeepSourced(c: Codec, s: State, env: Env, recon: Recon, run: Run)
    requires env.keyValuesFetched < |s.store.keyValues|
    requires Sourced(c, s, env, recon, run) && run.recon.secrets == recon.secrets
    ensures var step := SecretReferenceRefresh(c, s.provider, env, Existing(s, recon), run);
            && (step.Go? ==> Sourced(c, s, env, recon, step.run))
            && (step.Go? && IsExamined(s.provider.spec, run.recon.nextSecret, env, false, SecretReference) ==>
                  step.run.options.secretSettingPopulated)
            && (step.Go? && !run.options.secretSettingPopulated && step.run.options.secretSettingPopulated ==>
                  IsRefreshed(c, s, env, recon, step.run))
  {
    hide Resolved, SelectedMetadata, RefreshedSecrets, Existing;
  }

  lemma SecretsAdvance(c: Codec, provider: Provider, env: Env, existing: map<string, Secret>, run: Run)
    ensures SecretReferenceRefresh(c, provider, env, existing, run).run.shouldReconcile == run.shouldReconcile
  {
    hide RefreshedSecrets;
  }

  lemma KeyValuesNotDue(c: Codec, s: State, env: Env, data: Data, run: Run)
    requires ValidSpec(s.provider.spec) && env.keyValuesFetched < |s.store.keyValues|
    requires !IsExamined(s.provider.spec, run.recon.nextKeyValue, env, false, KeyValue)
    ensures KeyValueRefresh(c, s.provider, s.store, env, data, run).run.options.secretSettingPopulated
            == run.options.secretSettingPopulated
  {
    hide DueKeyValueRefresh;
  }

  /** At the end of populating. */
  lemma PopulateIsSourced(c: Codec, s: State, env: Env, start: Store, recon: Recon)
    requires Prepared(c, false, s, env, start, recon)
    ensures var configMap := OptionalConfigMap(s.cluster, s.provider.spec.configMapName);
            var step := PopulateSettings(c, s.provider, s.store, env, configMap, Existing(s, recon),
                                         StartRun(recon, s.cluster));
            && (step.Go? ==> Sourced(c, s, env, recon, step.run))
            && (step.Go? && IsExamined(s.provider.spec, recon.nextSecret, env, false, SecretReference) ==>
                  step.run.options.secretSettingPopulated)
            && (step.Go? && !step.run.shouldReconcile && step.run.options.secretSettingPopulated ==>
                  IsExamined(s.provider.spec, recon.nextKeyValue, env, false, KeyValue)
                  || IsRefreshed(c, s, env, recon, step.run))
  {
    hide FullReconciliation, FeatureFlagRefresh, KeyValueRefresh, SecretReferenceRefresh, ShouldReconcile, Existing,
         Sourced, Invariant, MetadataComplete, NewDeadline;
    var existing := Existing(s, recon);
    var configMap := OptionalConfigMap(s.cluster, s.provider.spec.configMapName);
    var should := ShouldReconcile(s.provider, recon, configMap, existing);
    var data := LiveData(s.cluster, s.provider.spec.configMapName);
    var run := StartRun(recon, s.cluster).(shouldReconcile := should);
    var first := if should then FullReconciliation(c, s.provider, s.store, env, run) else Go(run);
    FirstIsComplete(c, s, env, run);
    FirstPhaseKeepsRecon(c, s.provider, s.store, env, run.(shouldReconcile := true));
    FirstIsSourced(c, s, env, recon, run);
    if first.Go? {
      FeatureFlagsKeepComplete(c, s.provider, s.store, env, data, first.run);
      FeatureFlagDeadline(c, s.provider, s.store, env, data, first.run);
      FeatureFlagsKeepSourced(c, s, env, recon, data, first.run);
      FeatureFlagsAdvance(c, s.provider, s.store, env, data, first.run);
      var second := FeatureFlagRefresh(c, s.provider, s.store, env, data, first.run);
      if second.Go? {
        KeyValuesKeepComplete(c, s.provider, s.store, env, data, second.run);
        KeyValueDeadline(c, s.provider, s.store, env, data, second.run);
        KeyValuesKeepSourced(c, s, env, recon, data, second.run);
        if !IsExamined(s.provider.spec, recon.nextKeyValue, env, false, KeyValue) {
          KeyValuesNotDue(c, s, env, data, second.run);
        }
        KeyValuesAdvance(c, s.provider, s.store, env, data, second.run);
        var third := KeyValueRefresh(c, s.provider, s.store, env, data, second.run);
        if third.Go? {
          SecretsKeepSourced(c, s, env, recon, third.run);
          SecretsAdvance(c, s.provider, env, existing, third.run);
        }
      }
    }
  }

  lemma FirstIsSourced(c: Codec, s: State, env: Env, recon: Recon, run: Run)
    requires env.keyValuesFetched < |s.store.keyValues| && env.featureFlagsFetched < |s.store.featureFlags|
    requires run.options == NEW_OPTIONS
    ensures var step := if run.shouldReconcile then FullReconciliation(c, s.provider, s.store, env, run) else Go(run);
            step.Go? ==> Sourced(c, s, env, recon, step.run)
  {
    hide FullReconciliation;
    if run.shouldReconcile {
      FullIsSourced(c, s, env, recon, run);
    }
  }

  // ---------------------------------------------------------------- references survive the writes

  /** The metadata of n is the same but for the version. */
  ghost predicate SameReferences(before: Run, after: Run, n: string) {
    (n in MetadataOf(before) <==> n in MetadataOf(after)) &&
    (n in MetadataOf(after) ==> MetadataOf(after)[n] == MetadataOf(before)[n].(version := MetadataOf(after)[n].version))
  }

  lemma WriteOneKeepsReferences(c: Codec, provider: Provider, env: Env, existing: map<string, Secret>, name: string,
                                run: Run, n: string)
    requires name in run.settings.secrets
    ensures SameReferences(run, WriteOneSecret(c, provider, env, existing, name, run).run, n)
  {
    hide ParsedAt;
  }

  lemma {:induction false} WritesKeepReferences(c: Codec, provider: Provider, env: Env, existing: map<string, Secret>,
                                               names: seq<string>, run: Run, n: string)
    requires forall m :: m in names ==> m in run.settings.secrets
    ensures SameReferences(run, WriteSecrets(c, provider, env, existing, names, run).run, n)
    decreases names
  {
    hide WriteOneSecret, KeepsCore;
    if names != [] {
      var step := WriteOneSecret(c, provider, env, existing, names[0], run);
      WriteOneKeepsReferences(c, provider, env, existing, names[0], run, n);
      WriteOneSecretKeepsCore(c, provider, env, existing, names[0], run);
      KeepsCoreSecrets(run, step.run);
      if step.Go? {
        WritesKeepReferences(c, provider, env, existing, names[1..], step.run, n);
      }
    }
  }

  lemma {:induction false} ExpelsKeepReferences(env: Env, keep: set<string>, names: seq<string>, run: Run, n: string)
    ensures SameReferences(run, ExpelSecrets(env, keep, names, run).run, n)
    decreases names
  {
    if names != [] {
      if names[0] in keep {
        ExpelsKeepReferences(env, keep, names[1..], run, n);
      } else {
        var called := Called(run, DeleteSecret(names[0]));
        ExpelsKeepReferences(env, keep, names[1..],
                             called.(cluster := run.cluster.(secrets := run.cluster.secrets - {names[0]})), n);
      }
    }
  }

  lemma SyncKeepsReferences(c: Codec, provider: Provider, env: Env, existing: map<string, Secret>, run: Run, n: string)
    requires ListsKeys(env)
    ensures SameReferences(run, SyncSecrets(c, provider, env, existing, run).run, n)
  {
    hide WriteSecrets, ExpelSecrets;
    if !run.options.secretSettingPopulated {
      ExpelsKeepReferences(env, MetadataOf(run).Keys, env.order(existing.Keys), run, n);
    } else if ReadsNew(provider, env, existing, run) {
      var names := env.order(run.settings.secrets.Keys);
      assert Lists(names, run.settings.secrets.Keys);
      var collected := Collected(existing, run);
      WritesKeepReferences(c, provider, env, collected, names, run, n);
      var step := WriteSecrets(c, provider, env, collected, names, run);
      ExpelsKeepReferences(env, MetadataOf(step.run).Keys, env.order(collected.Keys), step.run, n);
    }
  }

  // ---------------------------------------------------------------- what is left in the cluster

  /** What the middle part of a reconcile of s ends with. */
  ghost function Populated(c: Codec, s: State, env: Env, store: Store): Run
    requires ValidEnv(env, s.store, store) && ValidSpec(s.provider.spec)
    requires Prepare(s.provider, s.cluster, s.recon, env).1.Some?
  {
    PopulateAndWrite(c, s.(store := store), env, Prepare(s.provider, s.cluster, s.recon, env).1.value).run
  }

  /** The tracked Secret n has the references, and the live one the data, that were populated. */
  ghost predicate LiveAsPopulated(c: Codec, spec: Spec, run: Run, recon: Recon, cluster: Cluster, n: string) {
    && spec.secret.Some? && n in run.settings.secrets && n in MetadataOf(run) && n in recon.secrets
    && n in cluster.secrets
    && recon.secrets[n].kind == MetadataOf(run)[n].kind && recon.secrets[n].references == MetadataOf(run)[n].references
    && SecretReflects(c, spec.secret.value, n, run.settings.secrets[n].data, cluster.secrets[n].data)
  }

  lemma PopulateAndWriteIsSourced(c: Codec, s: State, env: Env, start: Store, recon: Recon)
    requires Prepared(c, false, s, env, start, recon)
    ensures var spec, step := s.provider.spec, PopulateAndWrite(c, s, env, recon);
            step.Go? ==>
              && Sourced(c, s, env, recon, step.run)
              && (IsExamined(spec, recon.nextSecret, env, false, SecretReference) ==>
                    step.run.options.secretSettingPopulated)
              && (!step.run.shouldReconcile && step.run.options.secretSettingPopulated ==>
                    IsExamined(spec, recon.nextKeyValue, env, false, KeyValue)
                    || IsRefreshed(c, s, env, recon, step.run))
  {
    hide PopulateSettings, ShouldCreateOrUpdateConfigMap, Invariant, Existing, Resolved, SelectedMetadata,
         RefreshedSecrets;
    PopulateIsSourced(c, s, env, start, recon);
    ExistingIs(s, recon);
  }

  /** Populated Secrets are live as populated once the syncing is through. */
  lemma SyncedAreLive(c: Codec, s: State, env: Env, recon: Recon, run: Run)
    requires ListsKeys(env) && ReadyToSync(s, recon, run) && run.options.secretSettingPopulated
    ensures var step := SyncSecrets(c, s.provider, env, Existing(s, recon), run);
            step.Go? ==>
              && MetadataOf(step.run).Keys == run.settings.secrets.Keys
              && forall n :: n in run.settings.secrets ==>
                   LiveAsPopulated(c, s.provider.spec, run, step.run.recon.(secrets := MetadataOf(step.run)),
                                   step.run.cluster, n)
  {
    hide SyncSecrets, SecretReflects, KeepsCore, Existing;
    SyncConservesSecrets(c, s, env, recon, run);
    var step := SyncSecrets(c, s.provider, env, Existing(s, recon), run);
    SyncSecretsKeepsCore(c, s.provider, env, Existing(s, recon), run);
    KeepsCoreKeys(run, step.run);
    if step.Go? {
      forall n | n in run.settings.secrets
        ensures LiveAsPopulated(c, s.provider.spec, run, step.run.recon.(secrets := MetadataOf(step.run)),
                                step.run.cluster, n)
      {
        SyncKeepsReferences(c, s.provider, env, Existing(s, recon), run, n);
        assert InSync(c, s.provider.spec, step.run, n);
      }
    }
  }

  /** What a reconcile that is done has populated, and that it is what is tracked and live. */
  lemma DonePopulates(c: Codec, s: State, env: Env, store: Store)
    requires Inverse(c) && Invariant(c, false, s) && ValidEnv(env, s.store, store)
    requires ValidSpec(s.provider.spec) && s.provider.spec.secret.Some?
    requires Reconcile(c, s.(store := store), env).outcome.Done?
    ensures Prepare(s.provider, s.cluster, s.recon, env).1.Some?
    ensures var r := Reconcile(c, s.(store := store), env).state;
            var run, recon := Populated(c, s, env, store), Prepare(s.provider, s.cluster, s.recon, env).1.value;
            && Sourced(c, s.(store := store, recon := Some(recon)), env, recon, run)
            && run.shouldReconcile == !InStep(s)
            && (IsExamined(s.provider.spec, recon.nextSecret, env, false, SecretReference) ==>
                  run.options.secretSettingPopulated)
            && (!run.shouldReconcile && run.options.secretSettingPopulated ==>
                  || IsExamined(s.provider.spec, recon.nextKeyValue, env, false, KeyValue)
                  || IsRefreshed(c, s.(store := store, recon := Some(recon)), env, recon, run))
            && (run.options.secretSettingPopulated ==>
                  && r.recon.Some? && r.recon.value.secrets.Keys == run.settings.secrets.Keys
                  && forall n :: n in run.settings.secrets ==>
                       LiveAsPopulated(c, s.provider.spec, run, r.recon.value, r.cluster, n))
  {
    hide PopulateAndWrite, SyncSecrets, Prepare, Invariant, ReadyToSync, Prepared, Existing, Sourced, IsRefreshed,
         LiveAsPopulated, InStep, ShouldReconcile, ValidEnv, KeepsCore, Written, Examined, IsExamined;
    var (ready, recon) := Prepare(s.provider, s.cluster, s.recon, env);
    MiddleFacts(c, s, env, store, recon);
    var prepared := s.(store := store, recon := recon);
    PopulateAndWriteIsSourced(c, prepared, env, s.store, recon.value);
    PreparedDrift(c, s, env, recon);
    var v, w := PopulateAndWriteFacts(c, false, prepared, env, s.store, recon.value);
    var run := Populated(c, s, env, store);
    ExistingIs(prepared, recon.value);
    if run.options.secretSettingPopulated {
      ListsKeysIsValid(env, s.store, store);
      SyncedAreLive(c, prepared, env, recon.value, run);
      var synced := SyncSecrets(c, s.provider, env, Existing(prepared, recon.value), run);
      SyncSecretsKeepsCore(c, s.provider, env, Existing(prepared, recon.value), run);
      KeepsCoreOptions(run, synced.run);
      forall n | n in run.settings.secrets
        ensures LiveAsPopulated(c, s.provider.spec, run, FinishedRecon(s.provider, synced.run), synced.run.cluster, n)
      {
        LiveWhateverElse(c, s.provider.spec, run, synced.run.recon.(secrets := MetadataOf(synced.run)),
                         FinishedRecon(s.provider, synced.run), synced.run.cluster, n);
      }
    }
  }

  lemma ListsKeysIsValid(env: Env, start: Store, store: Store)
    requires ValidEnv(env, start, store)
    ensures ListsKeys(env)
  {
  }

  lemma LiveWhateverElse(c: Codec, spec: Spec, run: Run, a: Recon, b: Recon, cluster: Cluster, n: string)
    requires LiveAsPopulated(c, spec, run, a, cluster, n) && a.secrets == b.secrets
    ensures LiveAsPopulated(c, spec, run, b, cluster, n)
  {
  }

  // ---------------------------------------------------------------- main results

  ghost predicate Covers(values: Data, some: Data) {
    forall k :: k in some ==> k in values && values[k] == some[k]
  }

  /** The data holds a document of the values. */
  ghost predicate HoldsDocument(c: Codec, env: Env, options: DataOptions, values: Data, data: Data) {
    if options.kind == Properties then options.key in data && data[options.key] == c.printProperties(values)
    else ParsedAt(c, data, options) == Some(env.secretFields(values))
  }

  /** The data holds the current value of every reference without a version: as entries, or in
      a document at the key, or as the certificate of a TLS Secret. */
  ghost predicate HoldsCurrentValues(c: Codec, spec: Spec, env: Env, n: string, t: Tracked, data: Data) {
    if t.kind != SettingLoader.Opaque then
      CertificateIsRenewed(t, n) ==> Covers(data, Certificate(env, n, t))
    else if DefaultData(spec) then Covers(data, UnversionedValues(env, t))
    else if UnversionedValues(env, t) == map[] then true
    else exists values: Data ::
      Covers(values, UnversionedValues(env, t)) && HoldsDocument(c, env, SecretOptions(spec).value, values, data)
  }

  lemma AllCoversUnversioned(env: Env, t: Tracked)
    ensures Covers(AllValues(env, t), UnversionedValues(env, t))
    ensures UnversionedValues(env, t) != map[] ==> AllValues(env, t) != map[]
  {
    hide AllValues, UnversionedValues, IsRenewed;
    forall k | k in UnversionedValues(env, t)
      ensures k in AllValues(env, t) && AllValues(env, t)[k] == UnversionedValues(env, t)[k]
    {
      UnversionedValuesAre(env, t, k);
    }
    if UnversionedValues(env, t) != map[] {
      var k :| k in UnversionedValues(env, t);
      assert k in AllValues(env, t);
    }
  }

  lemma DocumentHolds(c: Codec, env: Env, options: Option<DataOptions>, values: Data, under: Data)
    requires Inverse(c) && options.Some? && options.value.kind != Default && values != map[]
    ensures HoldsDocument(c, env, options.value, values, under + TypedSecrets(c, env, values, options))
    ensures HoldsDocument(c, env, options.value, values, TypedSecrets(c, env, values, options))
  {
    if options.value.kind != Properties {
      ParsedDocument(c, env, values, options, under);
    }
  }

  /** What a load resolves is current. */
  lemma LoadedIsCurrent(c: Codec, spec: Spec, env: Env, n: string, t: Tracked)
    requires Inverse(c) && spec.secret.Some?
    ensures HoldsCurrentValues(c, spec, env, n, t, ResolvedData(c, env, SecretOptions(spec), n, t))
  {
    if t.kind == SettingLoader.Opaque {
      hide AllValues, UnversionedValues, ResolvedData, HoldsDocument;
      FullDataIs(c, env, SecretOptions(spec), n, t);
      AllCoversUnversioned(env, t);
      if !DefaultData(spec) && UnversionedValues(env, t) != map[] {
        DocumentHolds(c, env, SecretOptions(spec), AllValues(env, t), map[]);
      } else if AllValues(env, t) == map[] {
        assert UnversionedValues(env, t) == map[];
      }
    }
  }

  /** What a refresh lays over the live data is current. */
  lemma RefreshedIsCurrent(c: Codec, spec: Spec, env: Env, tracked: map<string, Tracked>, existing: map<string, Secret>,
                           n: string)
    requires Inverse(c) && spec.secret.Some? && n in existing && n in tracked
    ensures HoldsCurrentValues(c, spec, env, n, tracked[n], RefreshedSecrets(c, spec, env, tracked, existing)[n].data)
  {
    hide RefreshedSecrets, UnversionedValues, HoldsDocument;
    var t := tracked[n];
    if t.kind == SettingLoader.Opaque {
      OverlayIsOfUnversioned(c, spec, env, tracked, existing, n);
      assert Covers(UnversionedValues(env, t), UnversionedValues(env, t));
      if !DefaultData(spec) && UnversionedValues(env, t) != map[] {
        DocumentHolds(c, env, SecretOptions(spec), UnversionedValues(env, t), existing[n].data);
      }
    } else {
      TlsOverlayIsWhole(c, spec, env, tracked, existing, n);
    }
  }

  /** Live data that stands for current data is current. */
  lemma ReflectedIsCurrent(c: Codec, spec: Spec, env: Env, n: string, t: Tracked, latest: Data, live: Data)
    requires spec.secret.Some? && SecretReflects(c, spec.secret.value, n, latest, live)
    requires n == spec.secret.value.target ==> t.kind == SettingLoader.Opaque
    requires HoldsCurrentValues(c, spec, env, n, t, latest)
    ensures HoldsCurrentValues(c, spec, env, n, t, live)
  {
    hide UnversionedValues, ParsedAt, CertificateIsRenewed;
    if n == spec.secret.value.target && IsDocument(SecretOptions(spec)) && t.kind == SettingLoader.Opaque
       && UnversionedValues(env, t) != map[] {
      var values: Data :| Covers(values, UnversionedValues(env, t))
        && HoldsDocument(c, env, SecretOptions(spec).value, values, latest);
      assert HoldsDocument(c, env, SecretOptions(spec).value, values, live);
    }
  }

  lemma LiveIsCurrent(c: Codec, s: State, env: Env, recon: Recon, run: Run, after: Recon, cluster: Cluster, n: string)
    requires Inverse(c) && env.keyValuesFetched < |s.store.keyValues|
    requires Sourced(c, s, env, recon, run) && run.options.secretSettingPopulated
    requires run.recon.secrets == recon.secrets && LiveAsPopulated(c, s.provider.spec, run, after, cluster, n)
    requires TracksTarget(s.provider.spec, after.secrets)
    ensures HoldsCurrentValues(c, s.provider.spec, env, n, after.secrets[n], cluster.secrets[n].data)
  {
    hide SecretReflects, Existing, HoldsCurrentValues, ResolvedData, SelectedMetadata, Overlaid;
    var spec := s.provider.spec;
    if IsLoaded(c, s, env, run) {
      LoadedIsCurrent(c, spec, env, n, MetadataOf(run)[n]);
    } else {
      RefreshedIsCurrent(c, spec, env, recon.secrets, Existing(s, recon),
                         n) by { RefreshedKeys(c, spec, env, recon.secrets, Existing(s, recon)); }
    }
    assert HoldsCurrentValues(c, spec, env, n, MetadataOf(run)[n], run.settings.secrets[n].data);
    SameReferencesSameValues(c, spec, env, n, MetadataOf(run)[n], after.secrets[n], run.settings.secrets[n].data);
    ReflectedIsCurrent(c, spec, env, n, after.secrets[n], run.settings.secrets[n].data, cluster.secrets[n].data);
  }

  lemma RefreshedKeys(c: Codec, spec: Spec, env: Env, tracked: map<string, Tracked>, existing: map<string, Secret>)
    ensures RefreshedSecrets(c, spec, env, tracked, existing).Keys == existing.Keys
  {
    hide Resolved, ToResolve;
  }

  lemma SameReferencesSameValues(c: Codec, spec: Spec, env: Env, n: string, a: Tracked, b: Tracked, data: Data)
    requires a.kind == b.kind && a.references == b.references && spec.secret.Some?
    requires HoldsCurrentValues(c, spec, env, n, a, data)
    ensures HoldsCurrentValues(c, spec, env, n, b, data)
  {
    assert Unversioned(a) == Unversioned(b);
    assert UnversionedValues(env, a) == UnversionedValues(env, b);
  }

  lemma PreparedSecrets(s: State, env: Env, recon: Option<Recon>)
    requires InStep(s) && s.provider.spec.secret.Some? && Prepare(s.provider, s.cluster, s.recon, env) == (true, recon)
    ensures recon.Some? && recon.value.secrets == s.recon.value.secrets
  {
    var before := s.recon.value;
    var existing := Live(s.cluster, NamesToCollect(s.provider.spec, before));
    assert forall n :: n in before.secrets ==> n in existing.Keys && n in s.cluster.secrets;
    assert Reset(s.provider.spec, before, s.cluster).secrets == before.secrets;
  }

  lemma PopulatedKeepsTracked(c: Codec, s: State, env: Env, store: Store, recon: Option<Recon>)
    requires Inverse(c) && Invariant(c, false, s) && ValidEnv(env, s.store, store) && ValidSpec(s.provider.spec)
    requires Prepare(s.provider, s.cluster, s.recon, env) == (true, recon) && recon.Some?
    requires PopulateAndWrite(c, s.(store := store), env, recon.value).Go?
    ensures Populated(c, s, env, store).recon.secrets == recon.value.secrets
  {
    hide PopulateAndWrite, Prepare, Invariant, Prepared;
    MiddleFacts(c, s, env, store, recon);
  }

  /** After a reconcile in which secret references were due, or that loaded in full, every live
      tracked Secret, of any type and shape, holds the current values of its references
      without a version. */
  lemma DueSecretsAreRenewed(c: Codec, s: State, env: Env, store: Store, n: string)
    requires Inverse(c) && Invariant(c, false, s) && ValidEnv(env, s.store, store) && s.provider.spec.secret.Some?
    requires !InStep(s) || IsExamined(s.provider.spec, s.recon.GetOr(INITIAL).nextSecret, env, false, SecretReference)
    ensures Reconcile(c, s.(store := store), env).outcome.Done? ==>
              var r := Reconcile(c, s.(store := store), env).state;
              && r.recon.Some?
              && (n in r.recon.value.secrets ==>
                    && n in r.cluster.secrets
                    && HoldsCurrentValues(c, s.provider.spec, env, n, r.recon.value.secrets[n],
                                          r.cluster.secrets[n].data))
  {
    hide PopulateAndWrite, SyncSecrets, Prepare, Invariant, Sourced, IsRefreshed, LiveAsPopulated, InStep, IsExamined,
         HoldsCurrentValues, Populated;
    if Reconcile(c, s.(store := store), env).outcome.Done? {
      var (ready, recon) := Prepare(s.provider, s.cluster, s.recon, env);
      PrepareFacts(s.provider, s.cluster, s.recon, env);
      DonePopulates(c, s, env, store);
      PopulatedKeepsTracked(c, s, env, store, recon);
      assert recon.value.nextSecret == DeadlineOf(recon.value, SecretReference);
      assert s.recon.GetOr(INITIAL).nextSecret == DeadlineOf(s.recon.GetOr(INITIAL), SecretReference);
      var run, r := Populated(c, s, env, store), Reconcile(c, s.(store := store), env).state;
      assert run.options.secretSettingPopulated by { FullPopulates(c, s.(store := store, recon := recon), env,
                                                                   recon.value, run); }
      DoneTracksTarget(c, s, env, store);
      if n in r.recon.value.secrets {
        IsLive(c, s.provider.spec, run, r.recon.value, r.cluster, n);
        LiveIsCurrent(c, s.(store := store, recon := recon), env, recon.value, run, r.recon.value, r.cluster, n);
      }
    }
  }

  lemma DoneTracksTarget(c: Codec, s: State, env: Env, store: Store)
    requires Inverse(c) && Invariant(c, false, s) && ValidEnv(env, s.store, store)
    ensures var r := Reconcile(c, s.(store := store), env);
            r.outcome.Done? ==> r.state.recon.Some? && TracksTarget(r.state.provider.spec, r.state.recon.value.secrets)
  {
    hide Reconcile, Invariant;
    ReconcileKeepsInvariant(c, false, s, env, store);
    if Reconcile(c, s.(store := store), env).outcome.Done? {
      TracksTargetAfter(c, Reconcile(c, s.(store := store), env).state);
    }
  }

  lemma FullPopulates(c: Codec, s: State, env: Env, recon: Recon, run: Run)
    requires env.keyValuesFetched < |s.store.keyValues| && Sourced(c, s, env, recon, run)
    ensures run.shouldReconcile && s.provider.spec.secret.Some? ==> run.options.secretSettingPopulated
  {
  }

  lemma IsLive(c: Codec, spec: Spec, run: Run, after: Recon, cluster: Cluster, n: string)
    requires LiveAsPopulated(c, spec, run, after, cluster, n)
    ensures n in cluster.secrets
  {
  }

  /** When only secret references are due, the tracked Secrets and their references stay, and
      the live ones stand for what the refresh makes of what was live before. */
  ghost predicate OnlyRefreshed(c: Codec, spec: Spec, env: Env, before: map<string, Tracked>, live: Cluster,
                                after: Recon, cluster: Cluster) {
    && spec.secret.Some? && after.secrets.Keys == before.Keys
    && forall n :: n in before ==>
         && n in live.secrets && n in cluster.secrets
         && after.secrets[n].kind == before[n].kind && after.secrets[n].references == before[n].references
         && var refreshed := RefreshedSecrets(c, spec, env, before, Live(live, before.Keys));
            n in refreshed && SecretReflects(c, spec.secret.value, n, refreshed[n].data, cluster.secrets[n].data)
  }

  lemma SecretRefreshReflects(c: Codec, s: State, env: Env, store: Store)
    requires Inverse(c) && Invariant(c, false, s) && ValidEnv(env, s.store, store) && s.provider.spec.secret.Some?
    requires InStep(s) && IsExamined(s.provider.spec, s.recon.value.nextSecret, env, false, SecretReference)
    requires !IsExamined(s.provider.spec, s.recon.value.nextKeyValue, env, false, KeyValue)
    ensures Reconcile(c, s.(store := store), env).outcome.Done? ==>
              var r := Reconcile(c, s.(store := store), env).state;
              r.recon.Some? && OnlyRefreshed(c, s.provider.spec, env, s.recon.value.secrets, s.cluster, r.recon.value,
                                             r.cluster)
  {
    hide PopulateAndWrite, SyncSecrets, Prepare, Invariant, Sourced, LiveAsPopulated, InStep, IsExamined, Populated,
         ReadsNew, RefreshedSecrets, IsRefreshed, OnlyRefreshed;
    if Reconcile(c, s.(store := store), env).outcome.Done? {
      var (ready, recon) := Prepare(s.provider, s.cluster, s.recon, env);
      PrepareFacts(s.provider, s.cluster, s.recon, env);
      DonePopulates(c, s, env, store);
      PreparedSecrets(s, env, recon);
      PopulatedKeepsTracked(c, s, env, store, recon);
      assert recon.value.nextSecret == DeadlineOf(recon.value, SecretReference)
             == DeadlineOf(s.recon.GetOr(INITIAL), SecretReference);
      assert recon.value.nextKeyValue == DeadlineOf(recon.value, KeyValue)
             == DeadlineOf(s.recon.GetOr(INITIAL), KeyValue);
      var run, r := Populated(c, s, env, store), Reconcile(c, s.(store := store), env).state;
      InStepKeys(s);
      RefreshedAreLive(c, s.(store := store, recon := recon), env, recon.value, run, r.recon.value, r.cluster);
    }
  }

  lemma InStepKeys(s: State)
    requires InStep(s) && s.provider.spec.secret.Some?
    ensures s.recon.Some? && Existing(s, s.recon.value) == Live(s.cluster, s.recon.value.secrets.Keys)
    ensures Existing(s, s.recon.value).Keys == s.recon.value.secrets.Keys
  {
    var recon := s.recon.value;
    var names := NamesToCollect(s.provider.spec, recon);
    assert forall n :: n in names && n in s.cluster.secrets ==> n in Live(s.cluster, names).Keys;
  }

  lemma InStepTracksTarget(c: Codec, s: State)
    requires InStep(s) && Invariant(c, false, s)
    ensures TracksTarget(s.provider.spec, s.recon.value.secrets)
  {
    hide NothingLost;
  }

  lemma RefreshedAreLive(c: Codec, s: State, env: Env, recon: Recon, run: Run, after: Recon, cluster: Cluster)
    requires IsRefreshed(c, s, env, recon, run) && run.recon.secrets == recon.secrets && s.provider.spec.secret.Some?
    requires Existing(s, recon) == Live(s.cluster, recon.secrets.Keys) && Existing(s, recon).Keys == recon.secrets.Keys
    requires after.secrets.Keys == run.settings.secrets.Keys
    requires forall m :: m in run.settings.secrets ==> LiveAsPopulated(c, s.provider.spec, run, after, cluster, m)
    ensures OnlyRefreshed(c, s.provider.spec, env, recon.secrets, s.cluster, after, cluster)
  {
    hide SecretReflects, RefreshedSecrets;
    RefreshedKeys(c, s.provider.spec, env, recon.secrets, Existing(s, recon));
    forall n | n in recon.secrets
      ensures n in s.cluster.secrets
    {
      assert n in Existing(s, recon).Keys;
    }
    assert forall n :: n in recon.secrets ==> LiveAsPopulated(c, s.provider.spec, run, after, cluster, n);
  }

  /** Secret refresh overlay, for a tracked Secret n: with default data exactly the entries whose
      reference names no version take the current value and every other keeps its bytes; a TLS
      Secret takes the current certificate exactly when its reference names no version, and
      keeps its bytes otherwise; a json or yaml document becomes that of the unversioned
      references alone, or stays if there are none with a value. */
  lemma SecretRefreshOverlays(c: Codec, s: State, env: Env, store: Store, n: string)
    requires Inverse(c) && Invariant(c, false, s) && ValidEnv(env, s.store, store) && s.provider.spec.secret.Some?
    requires InStep(s) && IsExamined(s.provider.spec, s.recon.value.nextSecret, env, false, SecretReference)
    requires !IsExamined(s.provider.spec, s.recon.value.nextKeyValue, env, false, KeyValue)
    ensures Reconcile(c, s.(store := store), env).outcome.Done? ==>
              var before, r := s.recon.value, Reconcile(c, s.(store := store), env).state;
              && r.recon.Some? && r.recon.value.secrets.Keys == before.secrets.Keys
              && (n in before.secrets ==>
                    && r.recon.value.secrets[n].references == before.secrets[n].references
                    && n in s.cluster.secrets && n in r.cluster.secrets
                    && RefreshedAs(c, s.provider.spec, env, n, before.secrets[n], s.cluster.secrets[n].data,
                                   r.cluster.secrets[n].data))
  {
    hide Reconcile, Invariant, InStep, RefreshedSecrets, SecretReflects, RefreshedAs, IsExamined;
    InStepKeys(s);
    InStepTracksTarget(c, s);
    SecretRefreshReflects(c, s, env, store);
    var before, r := s.recon.value.secrets, Reconcile(c, s.(store := store), env).state;
    if Reconcile(c, s.(store := store), env).outcome.Done? && n in before {
      ReflectedIsRefreshedAs(c, s.provider.spec, env, before, Live(s.cluster, before.Keys), n,
                             r.cluster.secrets[n].data);
    }
  }

  /** What a refresh makes of the live data of a tracked Secret. */
  ghost predicate RefreshedAs(c: Codec, spec: Spec, env: Env, n: string, t: Tracked, before: Data, after: Data)
    requires spec.secret.Some?
  {
    if t.kind != SettingLoader.Opaque then
      after == if CertificateIsRenewed(t, n) then before + Certificate(env, n, t) else before
    else if DefaultData(spec) then
      forall k :: if IsRenewed(env, t, k) then k in after && after[k] == env.vault(t.references[k]).value
        else SameEntry(after, before, k)
    else if IsDocument(SecretOptions(spec)) then
      ParsedAt(c, after, SecretOptions(spec).value)
      == if UnversionedValues(env, t) == map[] then ParsedAt(c, before, SecretOptions(spec).value)
         else Some(env.secretFields(UnversionedValues(env, t)))
    else after == before + TypedSecrets(c, env, UnversionedValues(env, t), SecretOptions(spec))
  }

  lemma ReflectedIsRefreshedAs(c: Codec, spec: Spec, env: Env, tracked: map<string, Tracked>,
                               existing: map<string, Secret>,
                               n: string, after: Data)
    requires Inverse(c) && spec.secret.Some? && n in existing && n in tracked && TracksTarget(spec, tracked)
    requires SecretReflects(c, spec.secret.value, n, RefreshedSecrets(c, spec, env, tracked, existing)[n].data, after)
    ensures RefreshedAs(c, spec, env, n, tracked[n], existing[n].data, after)
  {
    hide RefreshedSecrets, UnversionedValues, ParsedAt;
    var t := tracked[n];
    if t.kind != SettingLoader.Opaque {
      TlsOverlayIsWhole(c, spec, env, tracked, existing, n);
    } else {
      OverlayIsOfUnversioned(c, spec, env, tracked, existing, n);
      if DefaultData(spec) {
        forall k
          ensures if IsRenewed(env, t, k) then k in after && after[k] == env.vault(t.references[k]).value
                  else SameEntry(after, existing[n].data, k)
        {
          OverlayIsExact(c, spec, env, tracked, existing, n, k);
        }
      } else if IsDocument(SecretOptions(spec)) {
        if UnversionedValues(env, t) == map[] {
          NoValuesNoData(c, env, SecretOptions(spec));
          assert existing[n].data + map[] == existing[n].data;
        } else {
          ParsedDocument(c, env, UnversionedValues(env, t), SecretOptions(spec), existing[n].data);
        }
      }
    }
  }
}
