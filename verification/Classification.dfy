/** Where each loaded setting goes (processSettings in
    internal/loader/configuration_setting_loader.go), told setting by setting and for whole lists,
    in which the last setting of a key wins. */
module Classification {
  import opened Wrappers
  import opened SettingLoader
  import opened Selectors
  import opened SelectorMeaning

  // ---------------------------------------------------------------- keys

  ghost predicate FirstPrefix(key: string, prefixes: seq<string>, i: nat) {
    i < |prefixes| && prefixes[i] <= key && forall j :: 0 <= j < i ==> !(prefixes[j] <= key)
  }

  /** k is what the first listed prefix that the key has leaves of it, or all of it. */
  ghost predicate TrimmedTo(key: string, prefixes: seq<string>, k: string) {
    if forall j :: 0 <= j < |prefixes| ==> !(prefixes[j] <= key) then k == key
    else exists i: nat :: FirstPrefix(key, prefixes, i) && key == prefixes[i] + k
  }

  lemma {:induction false} TrimsExactly(key: string, prefixes: seq<string>, k: string)
    ensures TrimPrefix(key, prefixes) == k <==> TrimmedTo(key, prefixes, k)
    decreases prefixes
  {
    if prefixes != [] && !(prefixes[0] <= key) {
      var rest := prefixes[1..];
      TrimsExactly(key, rest, k);
      assert forall j :: 0 < j < |prefixes| ==> prefixes[j] == rest[j - 1];
      if i: nat :| FirstPrefix(key, rest, i) && key == rest[i] + k {
        assert FirstPrefix(key, prefixes, i + 1);
      }
      if i: nat :| FirstPrefix(key, prefixes, i) && key == prefixes[i] + k {
        assert i > 0 && prefixes[i] == rest[i - 1];
        assert FirstPrefix(key, rest, i - 1);
      }
    } else if prefixes != [] {
      assert FirstPrefix(key, prefixes, 0) && key == prefixes[0] + key[|prefixes[0]|..];
    }
  }

  /** The setting has a key of which k is left. */
  ghost predicate HasKey(c: Context, s: Setting, k: string) {
    s.key.Some? && k != "" && TrimmedTo(s.key.value, c.trimKeyPrefixes, k)
  }

  // ---------------------------------------------------------------- kinds of settings

  ghost predicate IsPlain(c: Context, s: Setting, k: string) {
    HasKey(c, s, k) && (s.contentType.None? || s.contentType.value.Other?)
  }

  ghost predicate IsReference(c: Context, s: Setting, k: string) {
    HasKey(c, s, k) && s.contentType == Some(KeyVaultReference)
  }

  ghost predicate IsSnapshot(c: Context, s: Setting, k: string) {
    HasKey(c, s, k) && s.contentType == Some(SnapshotReference) && s.value.Some?
  }

  /** A reference needs a value that can be parsed, a target, a resolver, and no tag but the one
      of certificates. */
  predicate ValidReference(c: Context, s: Setting) {
    && s.value.Some? && c.secretTarget.Some? && c.resolverAvailable && c.parseReference(s.value.value).Some?
    && s.typeTag in {None, Some(Some("kubernetes.io/tls"))}
  }

  /** Without a tag it belongs to the target, with one to a Secret of its own. */
  ghost predicate GoesTo(c: Context, s: Setting, k: string, name: string) {
    && IsReference(c, s, k)
    && if s.typeTag.None? then c.secretTarget == Some(name) else name == k
  }

  function ReferencesOf(raw: Raw, name: string): map<string, KeyVaultSecretMetadata> {
    if name in raw.secrets then raw.secrets[name].references else map[]
  }

  // ---------------------------------------------------------------- one setting

  lemma OneAlone(c: Context, raw: Raw, s: Setting, allowSnapshot: bool)
    ensures Process(c, raw, [s], allowSnapshot) == ProcessOne(c, raw, s, allowSnapshot)
  {
    assert [s][1..] == [];
  }

  /** A setting without a key, or of whose key nothing is left, or that is a feature flag, or a
      snapshot reference without a value, is skipped. */
  lemma OthersAreSkipped(c: Context, raw: Raw, s: Setting, allowSnapshot: bool)
    requires forall k :: !IsPlain(c, s, k) && !IsReference(c, s, k) && !(allowSnapshot && IsSnapshot(c, s, k))
    ensures Process(c, raw, [s], allowSnapshot) == Success(raw)
  {
    OneAlone(c, raw, s, allowSnapshot);
    if s.key.Some? {
      var k := TrimPrefix(s.key.value, c.trimKeyPrefixes);
      TrimsExactly(s.key.value, c.trimKeyPrefixes, k);
      assert !IsPlain(c, s, k) && !IsReference(c, s, k);
    }
  }

  /** A plain setting is stored by its key, with its value and whether it is JSON. */
  lemma PlainIsStored(c: Context, raw: Raw, s: Setting, allowSnapshot: bool, k: string)
    requires IsPlain(c, s, k)
    ensures Process(c, raw, [s], allowSnapshot)
            == Success(raw.(keyValues := raw.keyValues[k := s.value],
                            isJson := raw.isJson[k := s.contentType == Some(Other(true))]))
  {
    OneAlone(c, raw, s, allowSnapshot);
    TrimsExactly(s.key.value, c.trimKeyPrefixes, k);
  }

  /** A reference is collected where it goes to, under its key; a Secret that is new is Opaque if
      it is the target, and a certificate otherwise. An invalid reference is an error. */
  lemma ReferenceIsCollected(c: Context, raw: Raw, s: Setting, allowSnapshot: bool, k: string)
    requires IsReference(c, s, k)
    ensures var after := Process(c, raw, [s], allowSnapshot);
            && (after.Success? <==> ValidReference(c, s))
            && (after.Success? ==>
                  exists name :: GoesTo(c, s, k, name) && Collects(raw, after.value, name, k, s.typeTag.None?,
                                                                   c.parseReference(s.value.value).value))
  {
    hide ReadReference, AddReference, Collects, TrimmedTo;
    OneAlone(c, raw, s, allowSnapshot);
    TrimsExactly(s.key.value, c.trimKeyPrefixes, k);
    ReadsValid(c, k, s);
    if ValidReference(c, s) {
      var name := if s.typeTag.None? then c.secretTarget.value else k;
      AddingCollects(raw, name, if s.typeTag.None? then Opaque else TLS, k, c.parseReference(s.value.value).value);
      assert GoesTo(c, s, k, name);
    }
  }

  lemma ReadsValid(c: Context, k: string, s: Setting)
    ensures ReadReference(c, k, s).Success? <==> ValidReference(c, s)
    ensures ValidReference(c, s) ==>
              ReadReference(c, k, s).value
              == (if s.typeTag.None? then c.secretTarget.value else k, if s.typeTag.None? then Opaque else TLS,
                  c.parseReference(s.value.value).value)
  {
  }

  lemma AddingCollects(raw: Raw, name: string, kind: SecretType, k: string, metadata: KeyVaultSecretMetadata)
    ensures Collects(raw, raw.(secrets := AddReference(raw.secrets, name, kind, k, metadata)), name, k, kind == Opaque,
                     metadata)
  {
  }

  /** Secret `name` gains the reference, and nothing else changes. */
  ghost predicate Collects(before: Raw, after: Raw, name: string, k: string, opaque_: bool,
                           metadata: KeyVaultSecretMetadata)
  {
    && after == before.(secrets := after.secrets)
    && (forall n :: n in after.secrets <==> n in before.secrets || n == name)
    && (forall n :: n in before.secrets && n != name ==> after.secrets[n] == before.secrets[n])
    && ReferencesOf(after, name) == ReferencesOf(before, name)[k := metadata]
    && after.secrets[name].kind == if name in before.secrets then before.secrets[name].kind
                                   else if opaque_ then Opaque else TLS
  }

  // ---------------------------------------------------------------- snapshot references

  ghost function UnfoldedOne(c: Context, s: Setting): Option<seq<Setting>> {
    if exists k :: IsSnapshot(c, s, k) then
      var name := c.parseSnapshotReference(s.value.value);
      if name.Some? && c.clientAvailable && c.snapshots(name.value).Success?
      then Some(c.snapshots(name.value).value) else None
    else Some([s])
  }

  /** The settings with every snapshot reference replaced by the settings of its snapshot. */
  ghost function Unfolded(c: Context, settings: seq<Setting>): Option<seq<Setting>> {
    if settings == [] then Some([])
    else
      var first, rest := UnfoldedOne(c, settings[0]), Unfolded(c, settings[1..]);
      if first.Some? && rest.Some? then Some(first.value + rest.value) else None
  }

  lemma {:induction false} ProcessConcat(c: Context, raw: Raw, a: seq<Setting>, b: seq<Setting>, allowSnapshot: bool)
    ensures var first := Process(c, raw, a, allowSnapshot);
            Process(c, raw, a + b, allowSnapshot)
            == if first.Success? then Process(c, first.value, b, allowSnapshot) else first
    decreases |a|
  {
    if a == [] {
      assert a + b == b;
    } else {
      assert (a + b)[0] == a[0] && (a + b)[1..] == a[1..] + b;
      var next := ProcessOne(c, raw, a[0], allowSnapshot);
      if next.Success? {
        ProcessConcat(c, next.value, a[1..], b, allowSnapshot);
      }
    }
  }

  lemma OneUnfolds(c: Context, raw: Raw, s: Setting)
    ensures var one, unfolded := ProcessOne(c, raw, s, true), UnfoldedOne(c, s);
            && (one.Success? <==> unfolded.Some? && Process(c, raw, unfolded.value, false).Success?)
            && (one.Success? ==> one == Process(c, raw, unfolded.value, false))
  {
    if k :| IsSnapshot(c, s, k) {
      TrimsExactly(s.key.value, c.trimKeyPrefixes, k);
    } else {
      assert [s][1..] == [];
      if s.key.Some? {
        var k := TrimPrefix(s.key.value, c.trimKeyPrefixes);
        TrimsExactly(s.key.value, c.trimKeyPrefixes, k);
        assert !IsSnapshot(c, s, k);
      }
    }
  }

  /** Classifying with snapshot references is classifying the unfolded settings, in which further
      snapshot references are skipped; it fails exactly when unfolding or that does. */
  lemma {:induction false} UnfoldsExactly(c: Context, raw: Raw, settings: seq<Setting>)
    ensures var all, unfolded := Process(c, raw, settings, true), Unfolded(c, settings);
            && (all.Success? <==> unfolded.Some? && Process(c, raw, unfolded.value, false).Success?)
            && (all.Success? ==> all == Process(c, raw, unfolded.value, false))
    decreases settings
  {
    hide ProcessOne, UnfoldedOne;
    if settings != [] {
      OneUnfolds(c, raw, settings[0]);
      var first, rest := UnfoldedOne(c, settings[0]), Unfolded(c, settings[1..]);
      var next := ProcessOne(c, raw, settings[0], true);
      if next.Success? {
        UnfoldsExactly(c, next.value, settings[1..]);
      }
      if first.Some? && rest.Some? {
        ProcessConcat(c, raw, first.value, rest.value, false);
      }
    }
  }

  // ---------------------------------------------------------------- the last one wins

  ghost predicate LastPlain(c: Context, settings: seq<Setting>, i: nat, k: string) {
    i < |settings| && IsPlain(c, settings[i], k) && forall j :: i < j < |settings| ==> !IsPlain(c, settings[j], k)
  }

  predicate IsStoredAs(after: Raw, s: Setting, k: string) {
    && k in after.keyValues && after.keyValues[k] == s.value
    && k in after.isJson && after.isJson[k] == (s.contentType == Some(Other(true)))
  }

  predicate SameKeyValue(before: Raw, after: Raw, k: string) {
    && (k in after.keyValues <==> k in before.keyValues) && (k in after.isJson <==> k in before.isJson)
    && (k in after.keyValues ==> after.keyValues[k] == before.keyValues[k])
    && (k in after.isJson ==> after.isJson[k] == before.isJson[k])
  }

  /** The key-value of a key is that of the last plain setting with the key; a key without one
      is as before. */
  ghost predicate LastIsStored(c: Context, before: Raw, after: Raw, settings: seq<Setting>, k: string) {
    && (forall i: nat :: LastPlain(c, settings, i, k) ==> IsStoredAs(after, settings[i], k))
    && ((forall i :: 0 <= i < |settings| ==> !IsPlain(c, settings[i], k)) ==> SameKeyValue(before, after, k))
  }

  ghost predicate LastReference(c: Context, settings: seq<Setting>, i: nat, k: string, name: string) {
    && i < |settings| && GoesTo(c, settings[i], k, name)
    && forall j :: i < j < |settings| ==> !GoesTo(c, settings[j], k, name)
  }

  predicate IsCollectedAs(c: Context, after: Raw, s: Setting, k: string, name: string) {
    && s.value.Some? && k in ReferencesOf(after, name)
    && c.parseReference(s.value.value) == Some(ReferencesOf(after, name)[k])
  }

  predicate SameReference(before: Raw, after: Raw, k: string, name: string) {
    && (k in ReferencesOf(after, name) <==> k in ReferencesOf(before, name))
    && (k in ReferencesOf(after, name) ==> ReferencesOf(after, name)[k] == ReferencesOf(before, name)[k])
  }

  /** What a Secret has under a key is the last reference with the key that goes there, or what it
      had before. */
  ghost predicate LastIsCollected(c: Context, before: Raw, after: Raw, settings: seq<Setting>, k: string,
                                  name: string)
  {
    && (forall i: nat :: LastReference(c, settings, i, k, name) ==> IsCollectedAs(c, after, settings[i], k, name))
    && ((forall i :: 0 <= i < |settings| ==> !GoesTo(c, settings[i], k, name)) ==>
          SameReference(before, after, k, name))
  }

  /** A Secret is there that was there before or that some reference goes to; the types of those
      before stay, and a new one that is not the target is a certificate. */
  ghost predicate TypesAreCollected(c: Context, before: Raw, after: Raw, settings: seq<Setting>, name: string) {
    && (name in after.secrets <==>
          name in before.secrets || exists i, k :: 0 <= i < |settings| && GoesTo(c, settings[i], k, name))
    && (name in before.secrets ==> name in after.secrets && after.secrets[name].kind == before.secrets[name].kind)
    && (name in after.secrets && name !in before.secrets && c.secretTarget != Some(name) ==>
          after.secrets[name].kind == TLS)
  }

  ghost predicate AllValid(c: Context, settings: seq<Setting>) {
    forall i, k :: 0 <= i < |settings| && IsReference(c, settings[i], k) ==> ValidReference(c, settings[i])
  }

  /** A setting has one key at most. */
  lemma OneKey(c: Context, s: Setting, j: string, k: string)
    requires HasKey(c, s, j) && HasKey(c, s, k)
    ensures j == k
  {
    TrimsExactly(s.key.value, c.trimKeyPrefixes, j);
    TrimsExactly(s.key.value, c.trimKeyPrefixes, k);
  }

  lemma OneIsStored(c: Context, raw: Raw, s: Setting, k: string, name: string)
    ensures var next := Process(c, raw, [s], false);
            && (next.Success? <==> AllValid(c, [s]))
            && (next.Success? ==>
                  && LastIsStored(c, raw, next.value, [s], k)
                  && LastIsCollected(c, raw, next.value, [s], k, name)
                  && TypesAreCollected(c, raw, next.value, [s], name))
  {
    hide Process, HasKey, TrimmedTo;
    assert [s][0] == s;
    if own :| IsPlain(c, s, own) {
      PlainIsStored(c, raw, s, false, own);
      PlainAlone(c, raw, s, own, k, name);
    } else if own :| IsReference(c, s, own) {
      ReferenceIsCollected(c, raw, s, false, own);
      assert AllValid(c, [s]) <==> ValidReference(c, s) by { assert IsReference(c, [s][0], own); }
      var next := Process(c, raw, [s], false);
      if next.Success? {
        var n :| GoesTo(c, s, own, n)
                 && Collects(raw, next.value, n, own, s.typeTag.None?, c.parseReference(s.value.value).value);
        CollectedAlone(c, raw, next.value, s, own, n, k, name);
      }
    } else {
      OthersAreSkipped(c, raw, s, false);
    }
  }

  lemma PlainAlone(c: Context, raw: Raw, s: Setting, own: string, k: string, name: string)
    requires IsPlain(c, s, own)
    ensures var after := raw.(keyValues := raw.keyValues[own := s.value],
                              isJson := raw.isJson[own := s.contentType == Some(Other(true))]);
            && LastIsStored(c, raw, after, [s], k) && LastIsCollected(c, raw, after, [s], k, name)
            && TypesAreCollected(c, raw, after, [s], name) && AllValid(c, [s])
  {
    hide HasKey;
    if HasKey(c, s, k) {
      OneKey(c, s, own, k);
    }
    assert [s][0] == s;
  }

  lemma CollectedAlone(c: Context, raw: Raw, after: Raw, s: Setting, own: string, n: string, k: string, name: string)
    requires ValidReference(c, s) && GoesTo(c, s, own, n)
    requires Collects(raw, after, n, own, s.typeTag.None?, c.parseReference(s.value.value).value)
    ensures LastIsStored(c, raw, after, [s], k) && LastIsCollected(c, raw, after, [s], k, name)
    ensures TypesAreCollected(c, raw, after, [s], name)
  {
    hide HasKey;
    assert [s][0] == s;
    if HasKey(c, s, k) {
      OneKey(c, s, own, k);
    }
    forall j, m | GoesTo(c, s, j, m)
      ensures j == own && m == n
    {
      OneKey(c, s, own, j);
    }
    assert name == n ==> GoesTo(c, [s][0], own, name);
  }

  lemma StoredInTurn(c: Context, a: Raw, b: Raw, d: Raw, s: Setting, rest: seq<Setting>, k: string)
    requires LastIsStored(c, a, b, [s], k) && LastIsStored(c, b, d, rest, k)
    ensures LastIsStored(c, a, d, [s] + rest, k)
  {
    hide IsPlain;
    var all := [s] + rest;
    assert forall j :: 0 <= j < |rest| ==> rest[j] == all[j + 1];
    forall i: nat | LastPlain(c, all, i, k)
      ensures IsStoredAs(d, all[i], k)
    {
      if i == 0 {
        assert LastPlain(c, [s], 0, k);
        assert SameKeyValue(b, d, k);
      } else {
        assert LastPlain(c, rest, i - 1, k);
      }
    }
    assert all[0] == s;
  }

  lemma CollectedInTurn(c: Context, a: Raw, b: Raw, d: Raw, s: Setting, rest: seq<Setting>, k: string, name: string)
    requires LastIsCollected(c, a, b, [s], k, name) && LastIsCollected(c, b, d, rest, k, name)
    ensures LastIsCollected(c, a, d, [s] + rest, k, name)
  {
    hide GoesTo, ReferencesOf;
    var all := [s] + rest;
    assert forall j :: 0 <= j < |rest| ==> rest[j] == all[j + 1];
    forall i: nat | LastReference(c, all, i, k, name)
      ensures IsCollectedAs(c, d, all[i], k, name)
    {
      if i == 0 {
        assert LastReference(c, [s], 0, k, name);
        assert SameReference(b, d, k, name);
      } else {
        assert LastReference(c, rest, i - 1, k, name);
      }
    }
    assert all[0] == s;
  }

  lemma TypesInTurn(c: Context, a: Raw, b: Raw, d: Raw, s: Setting, rest: seq<Setting>, name: string)
    requires TypesAreCollected(c, a, b, [s], name) && TypesAreCollected(c, b, d, rest, name)
    ensures TypesAreCollected(c, a, d, [s] + rest, name)
  {
    hide GoesTo;
    var all := [s] + rest;
    assert forall j :: 0 <= j < |rest| ==> rest[j] == all[j + 1];
    assert all[0] == s && [s][0] == s;
    if i, k :| 0 <= i < |all| && GoesTo(c, all[i], k, name) {
      assert if i == 0 then GoesTo(c, [s][0], k, name) else GoesTo(c, rest[i - 1], k, name);
    }
    if i, k :| 0 <= i < |rest| && GoesTo(c, rest[i], k, name) {
      assert GoesTo(c, all[i + 1], k, name);
    }
    if i, k :| 0 <= i < |[s]| && GoesTo(c, [s][i], k, name) {
      assert GoesTo(c, all[0], k, name);
    }
  }

  /** Classifying a list fails exactly when it has an invalid reference. Otherwise the last setting
      of each key wins. */
  lemma {:induction false} LastWins(c: Context, raw: Raw, settings: seq<Setting>, k: string, name: string)
    ensures var after := Process(c, raw, settings, false);
            && (after.Success? <==> AllValid(c, settings))
            && (after.Success? ==>
                  && LastIsStored(c, raw, after.value, settings, k)
                  && LastIsCollected(c, raw, after.value, settings, k, name)
                  && TypesAreCollected(c, raw, after.value, settings, name))
    decreases settings
  {
    hide ProcessOne, LastIsStored, LastIsCollected, TypesAreCollected, IsReference, ValidReference;
    if settings == [] {
      NothingIsStored(c, raw, k, name);
    } else {
      var s, rest := settings[0], settings[1..];
      assert settings == [s] + rest;
      OneAlone(c, raw, s, false);
      OneIsStored(c, raw, s, k, name);
      var next := ProcessOne(c, raw, s, false);
      if next.Success? {
        LastWins(c, next.value, rest, k, name);
        var after := Process(c, next.value, rest, false);
        if after.Success? {
          StoredInTurn(c, raw, next.value, after.value, s, rest, k);
          CollectedInTurn(c, raw, next.value, after.value, s, rest, k, name);
          TypesInTurn(c, raw, next.value, after.value, s, rest, name);
        }
      }
    }
  }

  lemma NothingIsStored(c: Context, raw: Raw, k: string, name: string)
    ensures LastIsStored(c, raw, raw, [], k) && LastIsCollected(c, raw, raw, [], k, name)
    ensures TypesAreCollected(c, raw, raw, [], name)
  {
  }

  /** Before classification there is only the target, without references. */
  function OnlyTarget(c: Context): Raw {
    Raw(map[], map[],
        if c.secretTarget.Some? then map[c.secretTarget.value := TargetSecret(Opaque, map[])] else map[])
  }

  /** A whole load: it fails exactly when loading does, or unfolding the snapshot references, or
      when there is an invalid reference; otherwise, of all settings, those of snapshots included,
      the last of each key wins. */
  lemma CreatedExactly(c: Context, query: Answering, selectors: seq<Selector>, k: string, name: string)
    ensures var settings, raw := LoadAll(c, query, selectors), CreateRaw(c, query, selectors);
            && (raw.Success? <==>
                  settings.Success? && Unfolded(c, settings.value).Some?
                  && AllValid(c, Unfolded(c, settings.value).value))
            && (raw.Success? ==>
                  var all := Unfolded(c, settings.value).value;
                  && LastIsStored(c, OnlyTarget(c), raw.value, all, k)
                  && LastIsCollected(c, OnlyTarget(c), raw.value, all, k, name)
                  && TypesAreCollected(c, OnlyTarget(c), raw.value, all, name))
  {
    hide Process, LastIsStored, LastIsCollected, TypesAreCollected, AllValid, Unfolded;
    var settings := LoadAll(c, query, selectors);
    assert OnlyTarget(c) == EmptyRaw(c.secretTarget);
    if settings.Success? {
      UnfoldsExactly(c, OnlyTarget(c), settings.value);
      if Unfolded(c, settings.value).Some? {
        LastWins(c, OnlyTarget(c), Unfolded(c, settings.value).value, k, name);
      }
    }
  }
}
