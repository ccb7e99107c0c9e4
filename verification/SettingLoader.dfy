/** Classification of loaded settings (processSettings, CreateKeyValueSettings and
    getFeatureFlagSettings in internal/loader/configuration_setting_loader.go, and
    SelectorSettingsClient.GetSettings in internal/loader/settings_client.go). */
module SettingLoader {
  import opened Wrappers

  datatype ContentType = FeatureFlag | KeyVaultReference | SnapshotReference | Other(json: bool)

  datatype SecretType = Opaque | TLS

  /** A stored setting. `typeTag` is the reserved tag that names a secret type: absent,
      present without a value, or present with one. */
  datatype Setting = Setting(
    key: Option<string>, value: Option<string>, contentType: Option<ContentType>, typeTag: Option<Option<string>>)

  datatype KeyVaultSecretMetadata = KeyVaultSecretMetadata(hostName: string, secretName: string, secretVersion: string)

  datatype TargetSecret = TargetSecret(kind: SecretType, references: map<string, KeyVaultSecretMetadata>)

  datatype Error = LoadFailed | InvalidSetting

  /** What classification meets: the provider's options, the parsers of reference values, the
      store's snapshots, and whether a Key Vault resolver and a client can be had. */
  datatype Context = Context(
    trimKeyPrefixes: seq<string>,
    secretTarget: Option<string>,
    parseReference: string -> Option<KeyVaultSecretMetadata>,
    parseSnapshotReference: string -> Option<string>,
    snapshots: string -> Result<seq<Setting>, Error>,
    resolverAvailable: bool,
    clientAvailable: bool)

  /** The three maps that classification fills. */
  datatype Raw = Raw(
    keyValues: map<string, Option<string>>, isJson: map<string, bool>, secrets: map<string, TargetSecret>)

  predicate HasPrefix(s: string, prefix: string) {
    prefix <= s
  }

  /** Drops the first listed prefix that the key has. */
  function TrimPrefix(key: string, prefixes: seq<string>): string {
    if prefixes == [] then key
    else if HasPrefix(key, prefixes[0]) then key[|prefixes[0]|..]
    else TrimPrefix(key, prefixes[1..])
  }

  /** The only secret type a tag may name. */
  function ParseSecretType(tag: string): Option<SecretType> {
    if tag == "kubernetes.io/tls" then Some(TLS) else None
  }

  // ---------------------------------------------------------------- one setting at a time

  /** The effect of a Key Vault reference on the collected secrets. */
  function AddReference(secrets: map<string, TargetSecret>, name: string, kind: SecretType, key: string,
                        metadata: KeyVaultSecretMetadata): map<string, TargetSecret>
  {
    var target := if name in secrets then secrets[name] else TargetSecret(kind, map[]);
    secrets[name := target.(references := target.references[key := metadata])]
  }

  /** What the value of a Key Vault reference setting adds: secret name, type and metadata. */
  function ReadReference(c: Context, key: string, s: Setting): Result<(string, SecretType, KeyVaultSecretMetadata),
                         Error> {
    if s.value.None? || c.secretTarget.None? then Failure(InvalidSetting)
    else if s.typeTag.Some? && s.typeTag.value.None? then Failure(InvalidSetting)
    else
      var kind := if s.typeTag.None? then Some(Opaque) else ParseSecretType(s.typeTag.value.value);
      if kind.None? || !c.resolverAvailable then Failure(InvalidSetting)
      else match c.parseReference(s.value.value)
        case None => Failure(InvalidSetting)
        case Some(metadata) =>
          Success((if kind.value == Opaque then c.secretTarget.value else key, kind.value, metadata))
  }

  /** The snapshot a reference setting names, read from the store. */
  function ReadSnapshot(c: Context, reference: string): Result<seq<Setting>, Error> {
    match c.parseSnapshotReference(reference)
    case None => Failure(InvalidSetting)
    case Some(name) => if c.clientAvailable then c.snapshots(name) else Failure(LoadFailed)
  }

  /** Classifies the settings one after the other on top of `raw`. A snapshot reference is
      replaced in place by the settings of its snapshot, inside which snapshot references
      are ignored. */
  function Process(c: Context, raw: Raw, settings: seq<Setting>, allowSnapshot: bool): Result<Raw, Error>
    decreases allowSnapshot, |settings|
  {
    if settings == [] then Success(raw)
    else
      var next :- ProcessOne(c, raw, settings[0], allowSnapshot);
      Process(c, next, settings[1..], allowSnapshot)
  }

  function ProcessOne(c: Context, raw: Raw, s: Setting, allowSnapshot: bool): Result<Raw, Error>
    decreases allowSnapshot, 0
  {
    if s.key.None? then Success(raw)
    else
      var key := TrimPrefix(s.key.value, c.trimKeyPrefixes);
      if key == "" then Success(raw)
      else match s.contentType
        case None => Success(raw.(keyValues := raw.keyValues[key := s.value], isJson := raw.isJson[key := false]))
        case Some(FeatureFlag) => Success(raw)
        case Some(KeyVaultReference) =>
          var (name, kind, metadata) :- ReadReference(c, key, s);
          Success(raw.(secrets := AddReference(raw.secrets, name, kind, key, metadata)))
        case Some(SnapshotReference) =>
          if !allowSnapshot || s.value.None? then Success(raw)
          else
            var inner :- ReadSnapshot(c, s.value.value);
            Process(c, raw, inner, false)
        case Some(Other(json)) =>
          Success(raw.(keyValues := raw.keyValues[key := s.value], isJson := raw.isJson[key := json]))
  }

  /** The maps the loop fills, as fields that it reassigns. */
  class RawSettings {
    var KeyValueSettings: map<string, Option<string>>
    var IsJsonContentTypeMap: map<string, bool>
    var K8sSecrets: map<string, TargetSecret>

    ghost function View(): Raw
      reads this
    {
      Raw(KeyValueSettings, IsJsonContentTypeMap, K8sSecrets)
    }

    constructor (secretTarget: Option<string>)
      ensures View() == EmptyRaw(secretTarget)
    {
      KeyValueSettings := map[];
      IsJsonContentTypeMap := map[];
      K8sSecrets := if secretTarget.Some? then map[secretTarget.value := TargetSecret(Opaque, map[])] else map[];
    }

    method ProcessSettings(c: Context, settings: seq<Setting>, allowSnapshot: bool) returns (ok: bool)
      modifies this
      ensures ok <==> Process(c, old(View()), settings, allowSnapshot).Success?
      ensures ok ==> View() == Process(c, old(View()), settings, allowSnapshot).value
      decreases allowSnapshot, |settings|
    {
      var i := 0;
      while i < |settings|
        invariant 0 <= i <= |settings|
        invariant Process(c, View(), settings[i..], allowSnapshot) == Process(c, old(View()), settings, allowSnapshot)
      {
        ghost var before := View();
        var setting := settings[i];
        assert settings[i..][0] == setting && settings[i..][1..] == settings[i + 1..];
        i := i + 1;
        if setting.key.None? {
          continue;
        }
        var trimmedKey := TrimPrefix(setting.key.value, c.trimKeyPrefixes);
        if |trimmedKey| == 0 {
          continue;
        }
        if setting.contentType.None? {
          KeyValueSettings := KeyValueSettings[trimmedKey := setting.value];
          IsJsonContentTypeMap := IsJsonContentTypeMap[trimmedKey := false];
          continue;
        }
        match setting.contentType.value {
          case FeatureFlag =>
          case KeyVaultReference =>
            var reference := ReadReference(c, trimmedKey, setting);
            if reference.Failure? {
              return false;
            }
            var (secretName, secretType, secretMetadata) := reference.value;
            if secretName !in K8sSecrets {
              K8sSecrets := K8sSecrets[secretName := TargetSecret(secretType, map[])];
            }
            var target := K8sSecrets[secretName];
            K8sSecrets := K8sSecrets[secretName :=
                                       target.(references := target.references[trimmedKey := secretMetadata])];
            assert K8sSecrets == AddReference(before.secrets, secretName, secretType, trimmedKey, secretMetadata);
          case SnapshotReference =>
            if allowSnapshot && setting.value.Some? {
              var inner := ReadSnapshot(c, setting.value.value);
              if inner.Failure? {
                return false;
              }
              var nested := ProcessSettings(c, inner.value, false);
              if !nested {
                return false;
              }
            }
          case Other(json) =>
            KeyValueSettings := KeyValueSettings[trimmedKey := setting.value];
            IsJsonContentTypeMap := IsJsonContentTypeMap[trimmedKey := json];
        }
        assert ProcessOne(c, before, setting, allowSnapshot) == Success(View());
      }
      ok := true;
    }
  }

  /** Before classification: the target secret, if secrets are configured, and nothing else. */
  function EmptyRaw(secretTarget: Option<string>): Raw {
    Raw(map[], map[], if secretTarget.Some? then map[secretTarget.value := TargetSecret(Opaque, map[])] else map[])
  }
}
