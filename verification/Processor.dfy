/** The phases that populate the settings, and the end of a reconcile
    (internal/controller/processor.go). */
module Processor {
  import opened Clock
  import opened Wrappers
  import opened TypedSetting
  import opened ReconcileTypes
  import SettingLoader

  function Called(run: Run, call: Call): Run { run.(trace := run.trace + [call]) }

  function Panicking(run: Run): Run { run.(panicked := true) }

  // ---------------------------------------------------------------- should it reconcile in full

  /** The drift test. `existing` are the live Secrets among the target and the tracked ones. */
  predicate ShouldReconcile(provider: Provider, recon: Recon, configMap: Option<ConfigMap>, existing: map<string,
                            Secret>) {
    || provider.generation != recon.generation
    || provider.annotations != recon.annotations
    || recon.configMapVersion.None? || configMap.None? || recon.configMapVersion.value != configMap.value.version
    || (provider.spec.secret.Some? &&
        (|recon.secrets| == 0
         || |recon.secrets| != |existing|
         || exists n :: n in existing && n in recon.secrets && recon.secrets[n].version != Some(existing[n].version)))
  }

  // ---------------------------------------------------------------- loading

  /** The target is made an Opaque Secret before any reference is looked at, and stays one. */
  function KindSelected(spec: Spec, n: string, kind: SettingLoader.SecretType): SettingLoader.SecretType {
    if spec.secret.Some? && n == spec.secret.value.target then SettingLoader.Opaque else kind
  }

  /** The Secrets that a load is about: the target always, and those with references. */
  function SelectedMetadata(spec: Spec, references: map<string, SettingLoader.TargetSecret>): map<string, Tracked> {
    var target :=
      if spec.secret.Some? then map[spec.secret.value.target := Tracked(SettingLoader.Opaque, map[], None)] else map[];
    if references == map[] then target
    else
      target
      + map n | n in references :: Tracked(KindSelected(spec, n, references[n].kind), references[n].references, None)
  }

  /** The Secrets tracked are the target and those with references, each with exactly its
      references; the target is Opaque, and every other Secret of the kind that it was given. */
  predicate TracksReferences(target: string, references: map<string, SettingLoader.TargetSecret>,
                             tracked: map<string, Tracked>)
  {
    && tracked.Keys == references.Keys + {target}
    && (forall n :: n in references ==> tracked[n].references == references[n].references)
    && (forall n :: n in references && n != target ==> tracked[n].kind == references[n].kind)
    && tracked[target].kind == SettingLoader.Opaque
    && (target !in references ==> tracked[target].references == map[])
  }

  /** What a load selects is what the references say. */
  lemma SelectedAreTracked(spec: Spec, references: map<string, SettingLoader.TargetSecret>)
    requires spec.secret.Some?
    ensures TracksReferences(spec.secret.value.target, references, SelectedMetadata(spec, references))
    ensures forall n ::
              n in SelectedMetadata(spec, references) ==> SelectedMetadata(spec, references)[n].version == None
  {
    var selected, target := SelectedMetadata(spec, references), spec.secret.value.target;
    forall n
      ensures n in selected <==> n in references.Keys + {target}
    {
    }
  }

  /** Secret data as the spec's data options shape it. */
  function TypedSecrets(c: Codec, env: Env, values: Data, options: Option<DataOptions>): Data {
    if values == map[] then map[]
    else if options.None? || options.value.kind == Default then values
    else if options.value.kind == Properties then map[options.value.key := c.printProperties(values)]
    else map[options.value.key := c.print_(options.value.kind, env.secretFields(values))]
  }

  const TLS_KEY := "tls.key"
  const TLS_CRT := "tls.crt"

  /** The data of one Secret after its references are resolved. A reference without a value
      contributes nothing. */
  function ResolvedData(c: Codec, env: Env, options: Option<DataOptions>, name: string, t: Tracked): Data {
    if t.kind == SettingLoader.Opaque then
      TypedSecrets(c, env,
                   map k | k in t.references && env.vault(t.references[k]).Some? :: env.vault(t.references[k]).value,
                     options)
    else if name in t.references then
      map[TLS_KEY := env.certificate(t.references[name]).0, TLS_CRT := env.certificate(t.references[name]).1]
    else map[]
  }

  function Resolved(c: Codec, env: Env, options: Option<DataOptions>, secrets: map<string, Tracked>): map<string,
                    SecretContent> {
    if secrets == map[] then map[]
    else map n | n in secrets :: SecretContent(secrets[n].kind, ResolvedData(c, env, options, n, secrets[n]))
  }

  /** The values that Key Vault has for the references, one for each that has any. */
  ghost predicate AreValues(env: Env, references: map<string, SettingLoader.KeyVaultSecretMetadata>, values: Data) {
    && (forall k :: k in values <==> k in references && env.vault(references[k]).Some?)
    && forall k :: k in values ==> env.vault(references[k]) == Some(values[k])
  }

  /** The data that is due to a Secret: of a TLS Secret the certificate that the reference of its
      name leads to; otherwise the values of its references, as entries, as one entry of printed
      properties, or as one entry that parses as their document. */
  ghost predicate HoldsReferences(c: Codec, env: Env, options: Option<DataOptions>, n: string, t: Tracked, data: Data) {
    if t.kind == SettingLoader.TLS then
      && (forall k :: k in data <==> n in t.references && (k == "tls.key" || k == "tls.crt"))
      && (n in t.references ==>
            env.certificate(t.references[n]) == (data["tls.key"], data["tls.crt"]))
    else exists values :: AreValues(env, t.references, values) && HoldsValues(c, env, options, values, data)
  }

  ghost predicate HoldsValues(c: Codec, env: Env, options: Option<DataOptions>, values: Data, data: Data) {
    if values == map[] then data == map[]
    else if options.None? || options.value.kind == Default then data == values
    else
      && (forall k :: k in data <==> k == options.value.key)
      && if options.value.kind == Properties then data[options.value.key] == c.printProperties(values)
         else c.parse(options.value.kind, data[options.value.key]) == Some(env.secretFields(values))
  }

  /** What the references of a Secret resolve to is the data that is due to it. */
  lemma ResolvedHolds(c: Codec, env: Env, options: Option<DataOptions>, n: string, t: Tracked)
    requires Inverse(c)
    ensures HoldsReferences(c, env, options, n, t, ResolvedData(c, env, options, n, t))
  {
    if t.kind == SettingLoader.Opaque {
      var values :=
        map k | k in t.references && env.vault(t.references[k]).Some? :: env.vault(t.references[k]).value;
      assert AreValues(env, t.references, values);
      assert HoldsValues(c, env, options, values, ResolvedData(c, env, options, n, t));
    }
  }

  function SecretOptions(spec: Spec): Option<DataOptions> {
    if spec.secret.Some? then spec.secret.value.secretData else None
  }

  /** A reference without a `secret` section is an error. */
  predicate Loadable(spec: Spec, content: Content) {
    content.references != map[] ==> spec.secret.Some?
  }

  function Flags(spec: Spec, store: Store, version: nat): Option<Fields>
    requires version < |store.featureFlags|
  {
    if spec.featureFlag.Some? then Some(store.featureFlags[version]) else None
  }

  // ---------------------------------------------------------------- the phases

  function WithRecon(run: Run, recon: Recon): Run { run.(recon := recon) }
  function WithOptions(run: Run, options: RefreshOptions): Run { run.(options := options) }
  function WithSettings(run: Run, settings: Settings): Run { run.(settings := settings) }

  function DeadlineAfter(env: Env, refresh: Option<Refresh>): Time {
    if refresh.Some? then env.now + refresh.value.interval else 0
  }

  function NextFeatureFlag(run: Run, time: Time): Run { WithRecon(run, run.recon.(nextFeatureFlag := time)) }
  function NextKeyValue(run: Run, time: Time): Run { WithRecon(run, run.recon.(nextKeyValue := time)) }
  function NextSecret(run: Run, time: Time): Run { WithRecon(run, run.recon.(nextSecret := time)) }

  /** What a full load records: all ETags, and that everything is populated. */
  function LoadedOptions(spec: Spec, store: Store, env: Env, o: RefreshOptions): RefreshOptions {
    o.(configMapSettingPopulated := true,
       updatedKeyValueETags := Some(env.keyValuesFetched),
       updatedFeatureFlagETags := if spec.featureFlag.Some? then Some(env.featureFlagsFetched) else None,
       updatedSentinelETags :=
         if KeyValueRefreshEnabled(spec) && spec.monitoring then Some(SentinelAt(store, env.sentinelRead)) else None,
       secretSettingPopulated := spec.secret.Some?)
  }

  /** The settings of a load: the ConfigMap data, and the resolved Secrets with metadata of
      their own. */
  function LoadedSettings(c: Codec, spec: Spec, env: Env, data: Data, references: map<string,
                          SettingLoader.TargetSecret>): Settings {
    var metadata := SelectedMetadata(spec, references);
    Settings(Some(data), Resolved(c, env, SecretOptions(spec), metadata), Own(metadata))
  }

  /** A full load of the store. Key-values without a document make it panic. */
  function FullReconciliation(c: Codec, provider: Provider, store: Store, env: Env, run: Run): Step
    requires env.keyValuesFetched < |store.keyValues| && env.featureFlagsFetched < |store.featureFlags|
  {
    var spec, content := provider.spec, store.keyValues[env.keyValuesFetched];
    var called := Called(run, CreateTargetSettings);
    if env.fault(CreateTargetSettings) != Fine || !Loadable(spec, content) then Stop(called)
    else if !content.buildable then Stop(Panicking(called))
    else
      var data := Typed(c, content.settings, Flags(spec, store, env.featureFlagsFetched), spec.configMapData);
      Go(WithOptions(WithSettings(called, LoadedSettings(c, spec, env, data, content.references)),
                     LoadedOptions(spec, store, env, run.options)))
  }

  /** Whether the recorded page ETags differ from those of a store version. */
  predicate PagesChanged(recorded: Option<nat>, version: nat) {
    recorded.Some? && recorded.value != version
  }

  function FeatureFlagRefresh(c: Codec, provider: Provider, store: Store, env: Env, existing: Data, run: Run): Step
    requires ValidSpec(provider.spec) && env.featureFlagsFetched < |store.featureFlags|
  {
    var spec := provider.spec;
    if !FeatureFlagRefreshEnabled(spec) then Go(NextFeatureFlag(run, 0))
    else
      var enabled := WithOptions(run, run.options.(featureFlagRefreshEnabled := true));
      var due := DeadlineAfter(env, spec.featureFlag.value);
      if run.shouldReconcile then Go(NextFeatureFlag(enabled, due))
      else if !(env.now > run.recon.nextFeatureFlag) then Go(enabled)
      else DueFeatureFlagRefresh(c, spec, store, env, existing, due, Called(enabled, CheckFeatureFlagETags))
  }

  /** The check has been called; if pages have changed, load the flags into the document. */
  function DueFeatureFlagRefresh(c: Codec, spec: Spec, store: Store, env: Env, existing: Data, due: Time,
                                 run: Run): Step
    requires spec.configMapData.Some? && env.featureFlagsFetched < |store.featureFlags|
  {
    if env.fault(CheckFeatureFlagETags) != Fine then Stop(run)
    else if !PagesChanged(run.recon.featureFlagETags, env.featureFlagsChecked) then Go(NextFeatureFlag(run, due))
    else
      var called := Called(run, RefreshFeatureFlagSettings);
      var data := RefreshFeatureFlags(c, store.featureFlags[env.featureFlagsFetched], existing,
                                      spec.configMapData.value);
      if env.fault(RefreshFeatureFlagSettings) != Fine || data.None? then
        Stop(WithOptions(called, run.options.(featureFlagRefreshNeeded := true)))
      else
        var options := run.options.(featureFlagRefreshNeeded := true, configMapSettingPopulated := true,
                                    updatedFeatureFlagETags := Some(env.featureFlagsFetched));
        Go(NextFeatureFlag(WithOptions(WithSettings(called, Settings(data, map[], Own(map[]))), options), due))
  }

  function KeyValueRefresh(c: Codec, provider: Provider, store: Store, env: Env, existing: Data, run: Run): Step
    requires ValidSpec(provider.spec) && env.keyValuesFetched < |store.keyValues|
  {
    var spec := provider.spec;
    if !KeyValueRefreshEnabled(spec) then Go(NextKeyValue(run, 0))
    else
      var enabled := WithOptions(run, run.options.(keyValueRefreshEnabled := true));
      var due := DeadlineAfter(env, spec.keyValueRefresh);
      if run.shouldReconcile then Go(NextKeyValue(enabled, due))
      else if !(env.now > run.recon.nextKeyValue) then Go(enabled)
      else DueKeyValueRefresh(c, spec, store, env, existing, due, enabled)
  }

  /** What the check of the sentinels, or else of the pages, finds. */
  function CheckedOptions(spec: Spec, store: Store, env: Env, recon: Recon, o: RefreshOptions): RefreshOptions {
    if spec.monitoring then
      var seen := Some(SentinelAt(store, env.sentinelChecked));
      o.(sentinelChanged := recon.sentinelETags != seen, updatedSentinelETags := seen)
    else o.(keyValuePageETagsChanged := PagesChanged(recon.keyValueETags, env.keyValuesChecked))
  }

  function KeyValueCheck(spec: Spec): Call {
    if spec.monitoring then CheckSentinels else CheckKeyValueETags
  }

  function DueKeyValueRefresh(c: Codec, spec: Spec, store: Store, env: Env, existing: Data, due: Time, run: Run): Step
    requires ValidSpec(spec) && env.keyValuesFetched < |store.keyValues|
  {
    var check := KeyValueCheck(spec);
    var called := Called(run, check);
    if env.fault(check) != Fine then Stop(called)
    else
      var checked := CheckedOptions(spec, store, env, run.recon, run.options);
      if !checked.sentinelChanged && !checked.keyValuePageETagsChanged then
          Go(NextKeyValue(WithOptions(called, checked), due))
      else ReloadKeyValues(c, spec, store, env, run.settings.configMap.GetOr(existing), due,
                           Called(WithOptions(called, checked), RefreshKeyValueSettings))
  }

  function ReloadedOptions(spec: Spec, env: Env, o: RefreshOptions): RefreshOptions {
    o.(configMapSettingPopulated := true,
       updatedKeyValueETags :=
         if o.keyValuePageETagsChanged then Some(env.keyValuesFetched) else o.updatedKeyValueETags,
       secretSettingPopulated := o.secretSettingPopulated || spec.secret.Some?)
  }

  function ReloadKeyValues(c: Codec, spec: Spec, store: Store, env: Env, existing: Data, due: Time, run: Run): Step
    requires ValidSpec(spec) && env.keyValuesFetched < |store.keyValues|
  {
    var content := store.keyValues[env.keyValuesFetched];
    var data := RefreshKeyValues(c, content.settings, existing, spec.featureFlag.Some?, spec.configMapData);
    if env.fault(RefreshKeyValueSettings) != Fine || !Loadable(spec, content) || data.None? then Stop(run)
    else if !content.buildable then Stop(Panicking(run))
    else
      var loaded := WithSettings(run, LoadedSettings(c, spec, env, data.value, content.references));
      Go(NextKeyValue(WithOptions(loaded, ReloadedOptions(spec, env, run.options)), due))
  }

  /** The references of a Secret that name no version. */
  function Unversioned(t: Tracked): map<string, SettingLoader.KeyVaultSecretMetadata> {
    map k | k in t.references && t.references[k].secretVersion == "" :: t.references[k]
  }

  /** The tracked Secrets with at least one such reference, with only those references. */
  function ToResolve(secrets: map<string, Tracked>): map<string, Tracked> {
    map n | n in secrets && Unversioned(secrets[n]) != map[] ::
      secrets[n].(references := Unversioned(secrets[n]), version := None)
  }

  /** Copies of the live Secrets with the newly resolved entries laid over them. */
  function Overlaid(existing: map<string, Secret>, resolved: map<string, SecretContent>): map<string, SecretContent> {
    map n | n in existing ::
      SecretContent(existing[n].kind, if n in resolved then existing[n].data + resolved[n].data else existing[n].data)
  }

  /** A live Secret without data has a nil map, and writing an entry into it panics. */
  predicate WritesIntoNil(existing: map<string, Secret>, resolved: map<string, SecretContent>) {
    exists n :: n in existing && existing[n].data == map[] && n in resolved && resolved[n].data != map[]
  }

  /** What a secret refresh makes of the live Secrets. */
  function RefreshedSecrets(c: Codec, spec: Spec, env: Env, tracked: map<string, Tracked>, existing: map<string,
                            Secret>): map<string, SecretContent> {
    Overlaid(existing, Resolved(c, env, SecretOptions(spec), ToResolve(tracked)))
  }

  function SecretReferenceRefresh(c: Codec, provider: Provider, env: Env, existing: map<string, Secret>,
                                  run: Run): Step {
    var spec := provider.spec;
    if !SecretRefreshEnabled(spec) then Go(NextSecret(run, 0))
    else
      var enabled := run.options.(secretReferenceRefreshEnabled := true);
      if !(env.now > run.recon.nextSecret) then Go(WithOptions(run, enabled))
      else
        var needed := WithOptions(run, enabled.(secretReferenceRefreshNeeded := true));
        var due := DeadlineAfter(env, spec.secret.value.refresh);
        if run.options.secretSettingPopulated then Go(NextSecret(needed, due))
        else DueSecretRefresh(c, spec, env, existing, due, Called(needed, ResolveSecretReferences))
  }

  function DueSecretRefresh(c: Codec, spec: Spec, env: Env, existing: map<string, Secret>, due: Time, run: Run): Step {
    if env.fault(ResolveSecretReferences) != Fine then Stop(run)
    else if WritesIntoNil(existing, Resolved(c, env, SecretOptions(spec), ToResolve(run.recon.secrets)))
    then Stop(Panicking(run))
    else
      var secrets := RefreshedSecrets(c, spec, env, run.recon.secrets, existing);
      var refreshed := WithSettings(run, run.settings.(secrets := secrets, metadata := Shared));
      Go(NextSecret(WithOptions(refreshed, run.options.(secretSettingPopulated := true)), due))
  }

  /** All phases in order. */
  function PopulateSettings(c: Codec, provider: Provider, store: Store, env: Env,
                            configMap: Option<ConfigMap>, existing: map<string, Secret>, run: Run): Step
    requires ValidSpec(provider.spec)
    requires env.keyValuesFetched < |store.keyValues| && env.featureFlagsFetched < |store.featureFlags|
  {
    var data := if configMap.Some? then configMap.value.data else map[];
    var should := ShouldReconcile(provider, run.recon, configMap, existing);
    var first := if should then FullReconciliation(c, provider, store, env, run.(shouldReconcile := true))
                 else Go(run.(shouldReconcile := false));
    if !first.Go? then first
    else
      var second := FeatureFlagRefresh(c, provider, store, env, data, first.run);
      if !second.Go? then second
      else
        var third := KeyValueRefresh(c, provider, store, env, data, second.run);
        if !third.Go? then third
        else SecretReferenceRefresh(c, provider, env, existing, third.run)
  }

  // ---------------------------------------------------------------- the end

  function EarlierOf(a: Time, b: Time): Time {
    if b != 0 && (a == 0 || b < a) then b else a
  }

  /** The time until the earliest deadline that is set, but at least a second. */
  function RequeueAfter(recon: Recon, finish: Time): Time {
    var next := EarlierOf(EarlierOf(EarlierOf(0, recon.nextKeyValue), recon.nextSecret), recon.nextFeatureFlag);
    if next - finish < SECOND then SECOND else next - finish
  }

  function FinishedRecon(provider: Provider, run: Run): Recon {
    var o := run.options;
    run.recon.(
      generation := provider.generation,
      annotations := provider.annotations,
      secrets := if o.secretSettingPopulated then MetadataOf(run) else run.recon.secrets,
      keyValueETags := if o.updatedKeyValueETags.Some? then o.updatedKeyValueETags else run.recon.keyValueETags,
      featureFlagETags :=
        if o.updatedFeatureFlagETags.Some? then o.updatedFeatureFlagETags else run.recon.featureFlagETags,
      sentinelETags :=
        if run.shouldReconcile || o.sentinelChanged then o.updatedSentinelETags else run.recon.sentinelETags)
  }

  predicate AnyRefreshEnabled(o: RefreshOptions) {
    o.secretReferenceRefreshEnabled || o.keyValueRefreshEnabled || o.featureFlagRefreshEnabled
  }

  function Finish(provider: Provider, env: Env, run: Run): (Recon, Outcome) {
    var recon := FinishedRecon(provider, run);
    (recon, Done(if AnyRefreshEnabled(run.options) then Some(RequeueAfter(recon, env.finish)) else None))
  }
}
