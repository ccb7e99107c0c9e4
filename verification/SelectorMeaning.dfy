/** Dropping all but the last of equal selectors does not change what is loaded
    (GetKeyValueFilters and CreateKeyValueSettings in
    internal/loader/configuration_setting_loader.go). */
module SelectorMeaning {
  import opened Wrappers
  import opened LastOccurrences
  import opened Selectors
  import opened SettingLoader

  // ---------------------------------------------------------------- settings as writes

  /** An assignment that classification makes. */
  datatype Write =
    | KeyValue(key: string, value: Option<string>, json: bool)
    | Reference(name: string, kind: SecretType, key: string, metadata: KeyVaultSecretMetadata)

  /** The place a write assigns to. */
  datatype Slot = KeyValueSlot(key: string) | ReferenceSlot(name: string, key: string)

  function SlotOf(w: Write): Slot {
    match w
    case KeyValue(key, _, _) => KeyValueSlot(key)
    case Reference(name, _, key, _) => ReferenceSlot(name, key)
  }

  /** The writes of a list of settings, snapshot references expanded in place. */
  function Expand(c: Context, settings: seq<Setting>, allowSnapshot: bool): Result<seq<Write>, Error>
    decreases allowSnapshot, |settings|
  {
    if settings == [] then Success([])
    else
      var first :- ExpandOne(c, settings[0], allowSnapshot);
      var rest :- Expand(c, settings[1..], allowSnapshot);
      Success(first + rest)
  }

  function ExpandOne(c: Context, s: Setting, allowSnapshot: bool): Result<seq<Write>, Error>
    decreases allowSnapshot, 0
  {
    if s.key.None? then Success([])
    else
      var key := TrimPrefix(s.key.value, c.trimKeyPrefixes);
      if key == "" then Success([])
      else match s.contentType
        case None => Success([KeyValue(key, s.value, false)])
        case Some(FeatureFlag) => Success([])
        case Some(KeyVaultReference) =>
          var (name, kind, metadata) :- ReadReference(c, key, s);
          Success([Reference(name, kind, key, metadata)])
        case Some(SnapshotReference) =>
          if !allowSnapshot || s.value.None? then Success([])
          else
            var inner :- ReadSnapshot(c, s.value.value);
            Expand(c, inner, false)
        case Some(Other(json)) => Success([KeyValue(key, s.value, json)])
  }

  function ApplyOne(raw: Raw, w: Write): Raw {
    match w
    case KeyValue(key, value, json) =>
      raw.(keyValues := raw.keyValues[key := value], isJson := raw.isJson[key := json])
    case Reference(name, kind, key, metadata) =>
      raw.(secrets := AddReference(raw.secrets, name, kind, key, metadata))
  }

  function Apply(raw: Raw, ws: seq<Write>): Raw
    decreases ws
  {
    if ws == [] then raw else Apply(ApplyOne(raw, ws[0]), ws[1..])
  }

  lemma {:induction false} ApplyConcat(raw: Raw, a: seq<Write>, b: seq<Write>)
    ensures Apply(raw, a + b) == Apply(Apply(raw, a), b)
    decreases a
  {
    if a == [] {
      assert a + b == b;
    } else {
      assert (a + b)[1..] == a[1..] + b;
      ApplyConcat(ApplyOne(raw, a[0]), a[1..], b);
    }
  }

  /** Classification is the sequence of its writes: each snapshot reference contributes the
      writes of its snapshot, at its own place and exactly one level deep. */
  lemma {:induction false} ProcessIsApply(c: Context, raw: Raw, settings: seq<Setting>, allowSnapshot: bool)
    ensures var ws := Expand(c, settings, allowSnapshot);
            Process(c, raw, settings, allowSnapshot) ==
            if ws.Success? then Success(Apply(raw, ws.value)) else Failure(ws.error)
    decreases allowSnapshot, |settings|
  {
    if settings != [] {
      ProcessOneIsApply(c, raw, settings[0], allowSnapshot);
      var first := ExpandOne(c, settings[0], allowSnapshot);
      if first.Success? {
        var next := Apply(raw, first.value);
        ProcessIsApply(c, next, settings[1..], allowSnapshot);
        var rest := Expand(c, settings[1..], allowSnapshot);
        if rest.Success? {
          ApplyConcat(raw, first.value, rest.value);
        }
      }
    }
  }

  lemma {:induction false} ProcessOneIsApply(c: Context, raw: Raw, s: Setting, allowSnapshot: bool)
    ensures var ws := ExpandOne(c, s, allowSnapshot);
            ProcessOne(c, raw, s, allowSnapshot) ==
            if ws.Success? then Success(Apply(raw, ws.value)) else Failure(ws.error)
    decreases allowSnapshot, 0
  {
    if s.key.Some? && s.contentType == Some(SnapshotReference) && allowSnapshot && s.value.Some? {
      var inner := ReadSnapshot(c, s.value.value);
      if inner.Success? {
        ProcessIsApply(c, raw, inner.value, false);
      }
    }
  }

  lemma {:induction false} ExpandConcat(c: Context, a: seq<Setting>, b: seq<Setting>, allowSnapshot: bool)
    ensures var wa, wb, w := Expand(c, a, allowSnapshot), Expand(c, b, allowSnapshot), Expand(c, a + b, allowSnapshot);
            && (w.Success? <==> wa.Success? && wb.Success?)
            && (w.Success? ==> w.value == wa.value + wb.value)
    decreases |a|
  {
    if a == [] {
      assert a + b == b;
    } else {
      assert (a + b)[0] == a[0] && (a + b)[1..] == a[1..] + b;
      ExpandConcat(c, a[1..], b, allowSnapshot);
    }
  }

  // ---------------------------------------------------------------- the last write wins

  /** The type of a secret is fixed by its name: opaque for the target, TLS for all others. */
  function KindOf(target: Option<string>, name: string): SecretType {
    if target == Some(name) then Opaque else TLS
  }

  ghost predicate WellTyped(raw: Raw, target: Option<string>) {
    && (target.Some? ==> target.value in raw.secrets)
    && forall n :: n in raw.secrets ==> raw.secrets[n].kind == KindOf(target, n)
  }

  ghost predicate WellTypedWrite(w: Write, target: Option<string>) {
    w.Reference? ==> w.kind == KindOf(target, w.name) || target == Some(w.name)
  }

  ghost predicate WellTypedWrites(ws: seq<Write>, target: Option<string>) {
    forall i :: 0 <= i < |ws| ==> WellTypedWrite(ws[i], target)
  }

  lemma {:induction false} ExpandIsWellTyped(c: Context, settings: seq<Setting>, allowSnapshot: bool)
    requires Expand(c, settings, allowSnapshot).Success?
    ensures WellTypedWrites(Expand(c, settings, allowSnapshot).value, c.secretTarget)
    decreases allowSnapshot, |settings|
  {
    if settings != [] {
      ExpandIsWellTyped(c, settings[1..], allowSnapshot);
      var s := settings[0];
      if s.key.Some? && s.contentType == Some(SnapshotReference) && allowSnapshot && s.value.Some?
         && TrimPrefix(s.key.value, c.trimKeyPrefixes) != "" {
        ExpandIsWellTyped(c, ReadSnapshot(c, s.value.value).value, false);
      }
    }
  }

  function References(raw: Raw, name: string): map<string, KeyVaultSecretMetadata> {
    if name in raw.secrets then raw.secrets[name].references else map[]
  }

  /** The two states differ at most in what is assigned to the slot. */
  ghost predicate AgreeExcept(a: Raw, b: Raw, slot: Slot) {
    match slot
    case KeyValueSlot(key) =>
      a.keyValues - {key} == b.keyValues - {key} && a.isJson - {key} == b.isJson - {key} && a.secrets == b.secrets
    case ReferenceSlot(name, key) =>
      && a.keyValues == b.keyValues && a.isJson == b.isJson
      && a.secrets - {name} == b.secrets - {name}
      && References(a, name) - {key} == References(b, name) - {key}
  }

  lemma UpdateElsewhere<K, V>(m: map<K, V>, k: K, v: V, d: K)
    ensures m[k := v] - {d} == if k == d then m - {d} else (m - {d})[k := v]
  {
  }

  lemma UpdateTheDifference<K, V>(a: map<K, V>, b: map<K, V>, k: K, v: V)
    requires a - {k} == b - {k}
    ensures a[k := v] == b[k := v]
  {
    assert a[k := v] == (a - {k})[k := v];
    assert b[k := v] == (b - {k})[k := v];
  }

  lemma SameElsewhere<K, V>(a: map<K, V>, b: map<K, V>, d: K, k: K)
    requires a - {d} == b - {d} && k != d
    ensures (k in a <==> k in b) && (k in a ==> a[k] == b[k])
  {
    assert (k in a <==> k in a - {d}) && (k in b <==> k in b - {d});
    assert k in a ==> a[k] == (a - {d})[k];
    assert k in b ==> b[k] == (b - {d})[k];
  }

  lemma SameWriteAgrees(a: Raw, b: Raw, target: Option<string>, slot: Slot, w: Write)
    requires AgreeExcept(a, b, slot) && WellTyped(a, target) && WellTyped(b, target) && WellTypedWrite(w, target)
    ensures WellTyped(ApplyOne(a, w), target) && WellTyped(ApplyOne(b, w), target)
    ensures if SlotOf(w) == slot then ApplyOne(a, w) == ApplyOne(b, w)
            else AgreeExcept(ApplyOne(a, w), ApplyOne(b, w), slot)
  {
    match slot
    case KeyValueSlot(key) =>
      if w.KeyValue? {
        if w.key == key {
          UpdateTheDifference(a.keyValues, b.keyValues, key, w.value);
          UpdateTheDifference(a.isJson, b.isJson, key, w.json);
        } else {
          UpdateElsewhere(a.keyValues, w.key, w.value, key);
          UpdateElsewhere(b.keyValues, w.key, w.value, key);
          UpdateElsewhere(a.isJson, w.key, w.json, key);
          UpdateElsewhere(b.isJson, w.key, w.json, key);
        }
      }
    case ReferenceSlot(name, key) =>
      if w.Reference? {
        SameReferenceAgrees(a, b, target, name, key, w);
      }
  }

  lemma SameReferenceAgrees(a: Raw, b: Raw, target: Option<string>, name: string, key: string, w: Write)
    requires w.Reference? && AgreeExcept(a, b, ReferenceSlot(name, key))
    requires WellTyped(a, target) && WellTyped(b, target) && WellTypedWrite(w, target)
    ensures if w.name == name && w.key == key then ApplyOne(a, w) == ApplyOne(b, w)
            else AgreeExcept(ApplyOne(a, w), ApplyOne(b, w), ReferenceSlot(name, key))
  {
    var newA, newB := ApplyOne(a, w).secrets[w.name], ApplyOne(b, w).secrets[w.name];
    UpdateElsewhere(a.secrets, w.name, newA, name);
    UpdateElsewhere(b.secrets, w.name, newB, name);
    if w.name != name {
      SameElsewhere(a.secrets, b.secrets, name, w.name);
    } else if w.key == key {
      UpdateTheDifference(References(a, name), References(b, name), key, w.metadata);
      assert newA == newB;
      UpdateTheDifference(a.secrets, b.secrets, name, newA);
    } else {
      UpdateElsewhere(References(a, name), w.key, w.metadata, key);
      UpdateElsewhere(References(b, name), w.key, w.metadata, key);
    }
  }

  ghost predicate Assigns(ws: seq<Write>, slot: Slot) {
    exists i :: 0 <= i < |ws| && SlotOf(ws[i]) == slot
  }

  /** States that differ only in a slot that is assigned later end up equal. */
  lemma {:induction false} AssignedSlotIsForgotten(a: Raw, b: Raw, target: Option<string>, slot: Slot, ws: seq<Write>)
    requires AgreeExcept(a, b, slot) && WellTyped(a, target) && WellTyped(b, target) && WellTypedWrites(ws, target)
    requires Assigns(ws, slot)
    ensures Apply(a, ws) == Apply(b, ws)
    decreases ws
  {
    assert WellTypedWrite(ws[0], target);
    SameWriteAgrees(a, b, target, slot, ws[0]);
    if SlotOf(ws[0]) != slot {
      var i :| 0 <= i < |ws| && SlotOf(ws[i]) == slot;
      assert ws[1..][i - 1] == ws[i];
      AssignedSlotIsForgotten(ApplyOne(a, ws[0]), ApplyOne(b, ws[0]), target, slot, ws[1..]);
    }
  }

  lemma OneWriteAgrees(raw: Raw, w: Write)
    ensures AgreeExcept(ApplyOne(raw, w), raw, SlotOf(w))
  {
    match w
    case KeyValue(key, _, _) =>
      assert ApplyOne(raw, w).keyValues - {key} == raw.keyValues - {key};
      assert ApplyOne(raw, w).isJson - {key} == raw.isJson - {key};
    case Reference(name, _, key, _) =>
      assert ApplyOne(raw, w).secrets - {name} == raw.secrets - {name};
      assert References(ApplyOne(raw, w), name) - {key} == References(raw, name) - {key};
  }

  /** Writes whose slots are all assigned later have no effect. */
  lemma {:induction false} OverwrittenHasNoEffect(raw: Raw, target: Option<string>, early: seq<Write>, late: seq<Write>)
    requires WellTyped(raw, target) && WellTypedWrites(early, target) && WellTypedWrites(late, target)
    requires forall i :: 0 <= i < |early| ==> Assigns(late, SlotOf(early[i]))
    ensures Apply(raw, early + late) == Apply(raw, late)
    decreases early
  {
    if early == [] {
      assert early + late == late;
    } else {
      var w := early[0];
      assert (early + late)[1..] == early[1..] + late;
      assert WellTypedWrite(w, target);
      OneWriteAgrees(raw, w);
      SameWriteAgrees(raw, raw, target, SlotOf(w), w);
      OverwrittenHasNoEffect(ApplyOne(raw, w), target, early[1..], late);
      AssignedSlotIsForgotten(ApplyOne(raw, w), raw, target, SlotOf(w), late);
    }
  }

  // ---------------------------------------------------------------- selectors

  /** What the store answers to a key-filter query; it does not depend on the tag order. */
  type Answering = ComparableSelector -> Result<seq<Setting>, Error>

  function LoadSelector(c: Context, query: Answering, s: Selector): Result<seq<Setting>, Error> {
    if s.keyFilter.Some? then query(Comparable(s))
    else if s.snapshotName.Some? then c.snapshots(s.snapshotName.value)
    else Failure(LoadFailed)
  }

  /** The settings of all selectors, one after the other. */
  function LoadAll(c: Context, query: Answering, selectors: seq<Selector>): Result<seq<Setting>, Error> {
    if selectors == [] then Success([])
    else
      var first :- LoadSelector(c, query, selectors[0]);
      var rest :- LoadAll(c, query, selectors[1..]);
      Success(first + rest)
  }

  /** Loading the selectors and classifying what came back. */
  function CreateRaw(c: Context, query: Answering, selectors: seq<Selector>): Result<Raw, Error> {
    var settings :- LoadAll(c, query, selectors);
    Process(c, EmptyRaw(c.secretTarget), settings, true)
  }

  /** The writes of one selector. */
  function SelectorWrites(c: Context, query: Answering, s: Selector): Result<seq<Write>, Error> {
    var settings :- LoadSelector(c, query, s);
    Expand(c, settings, true)
  }

  ghost predicate AllGood(c: Context, query: Answering, selectors: seq<Selector>) {
    forall i :: 0 <= i < |selectors| ==> SelectorWrites(c, query, selectors[i]).Success?
  }

  ghost function AllWrites(c: Context, query: Answering, selectors: seq<Selector>): seq<Write>
    requires AllGood(c, query, selectors)
  {
    if selectors == [] then []
    else
      assert forall i :: 0 <= i < |selectors[1..]| ==> selectors[1..][i] == selectors[i + 1];
      SelectorWrites(c, query, selectors[0]).value + AllWrites(c, query, selectors[1..])
  }

  /** Creation succeeds exactly when every selector loads and expands, and then it is the
      sequence of all their writes. */
  lemma {:induction false} LoadAllIsAllWrites(c: Context, query: Answering, selectors: seq<Selector>)
    ensures var all := LoadAll(c, query, selectors);
            && (AllGood(c, query, selectors) <==> all.Success? && Expand(c, all.value, true).Success?)
            && (AllGood(c, query, selectors) ==> Expand(c, all.value, true).value == AllWrites(c, query, selectors))
  {
    if selectors != [] {
      assert forall i :: 0 <= i < |selectors[1..]| ==> selectors[1..][i] == selectors[i + 1];
      LoadAllIsAllWrites(c, query, selectors[1..]);
      var first, rest := LoadSelector(c, query, selectors[0]), LoadAll(c, query, selectors[1..]);
      if first.Success? && rest.Success? {
        ExpandConcat(c, first.value, rest.value, true);
      }
      assert AllGood(c, query, selectors) <==>
             SelectorWrites(c, query, selectors[0]).Success? && AllGood(c, query, selectors[1..]) by {
        if SelectorWrites(c, query, selectors[0]).Success? && AllGood(c, query, selectors[1..]) {
          forall i | 0 <= i < |selectors|
            ensures SelectorWrites(c, query, selectors[i]).Success?
          {
            assert i == 0 || selectors[i] == selectors[1..][i - 1];
          }
        }
      }
    }
  }

  lemma CreateRawIsApply(c: Context, query: Answering, selectors: seq<Selector>)
    ensures CreateRaw(c, query, selectors).Success? <==> AllGood(c, query, selectors)
    ensures AllGood(c, query, selectors) ==>
              CreateRaw(c, query, selectors).value == Apply(EmptyRaw(c.secretTarget), AllWrites(c, query, selectors))
  {
    LoadAllIsAllWrites(c, query, selectors);
    var all := LoadAll(c, query, selectors);
    if all.Success? {
      ProcessIsApply(c, EmptyRaw(c.secretTarget), all.value, true);
    }
  }

  /** Classification is where the kinds of Secrets come from: the target is Opaque, also when a
      reference tagged as a certificate has its name, and all others are certificates. */
  lemma KindsAreByName(c: Context, query: Answering, selectors: seq<Selector>)
    ensures CreateRaw(c, query, selectors).Success? ==>
              var secrets := CreateRaw(c, query, selectors).value.secrets;
              && (c.secretTarget.Some? ==> c.secretTarget.value in secrets)
              && forall n :: n in secrets ==> (secrets[n].kind == Opaque <==> c.secretTarget == Some(n))
  {
    CreateRawIsApply(c, query, selectors);
    if AllGood(c, query, selectors) {
      AllWritesAreWellTyped(c, query, selectors);
      ApplyIsWellTyped(EmptyRaw(c.secretTarget), c.secretTarget, AllWrites(c, query, selectors));
    }
  }

  /** Selectors with the same comparable form load the same settings. */
  lemma SameComparableSameWrites(c: Context, query: Answering, a: Selector, b: Selector)
    requires Comparable(a) == Comparable(b)
    ensures SelectorWrites(c, query, a) == SelectorWrites(c, query, b)
  {
  }

  lemma {:induction false} WritesOfMember(c: Context, query: Answering, selectors: seq<Selector>, i: nat, slot: Slot)
    requires i < |selectors| && AllGood(c, query, selectors)
    requires Assigns(SelectorWrites(c, query, selectors[i]).value, slot)
    ensures Assigns(AllWrites(c, query, selectors), slot)
  {
    assert forall k :: 0 <= k < |selectors[1..]| ==> selectors[1..][k] == selectors[k + 1];
    var first, rest := SelectorWrites(c, query, selectors[0]).value, AllWrites(c, query, selectors[1..]);
    if i == 0 {
      var k :| 0 <= k < |first| && SlotOf(first[k]) == slot;
      assert (first + rest)[k] == first[k];
    } else {
      WritesOfMember(c, query, selectors[1..], i - 1, slot);
      var k :| 0 <= k < |rest| && SlotOf(rest[k]) == slot;
      assert (first + rest)[|first| + k] == rest[k];
    }
  }

  lemma {:induction false} AllWritesAreWellTyped(c: Context, query: Answering, selectors: seq<Selector>)
    requires AllGood(c, query, selectors)
    ensures WellTypedWrites(AllWrites(c, query, selectors), c.secretTarget)
  {
    if selectors != [] {
      assert forall k :: 0 <= k < |selectors[1..]| ==> selectors[1..][k] == selectors[k + 1];
      ExpandIsWellTyped(c, LoadSelector(c, query, selectors[0]).value, true);
      AllWritesAreWellTyped(c, query, selectors[1..]);
    }
  }

  lemma {:induction false} ApplyIsWellTyped(raw: Raw, target: Option<string>, ws: seq<Write>)
    requires WellTyped(raw, target) && WellTypedWrites(ws, target)
    ensures WellTyped(Apply(raw, ws), target)
    decreases ws
  {
    if ws != [] {
      assert WellTypedWrite(ws[0], target);
      OneWriteAgrees(raw, ws[0]);
      SameWriteAgrees(raw, raw, target, SlotOf(ws[0]), ws[0]) by {
        assert AgreeExcept(raw, raw, SlotOf(ws[0]));
      }
      ApplyIsWellTyped(ApplyOne(raw, ws[0]), target, ws[1..]);
    }
  }

  /** Keeping the last of equal selectors keeps all of them loadable or none. */
  lemma SelectionKeepsGood(c: Context, query: Answering, selectors: seq<Selector>)
    ensures AllGood(c, query, selectors) <==> AllGood(c, query, LastPerKey(selectors, Comparable))
  {
    hide Comparable, LastPerKey, SelectorWrites;
    var kept := LastPerKey(selectors, Comparable);
    forall i | 0 <= i < |kept|
      ensures exists j :: 0 <= j < |selectors| && Comparable(selectors[j]) == Comparable(kept[i])
    {
      SelectionKeepsKeys(selectors, Comparable, Comparable(kept[i]));
    }
    forall j | 0 <= j < |selectors|
      ensures exists i :: 0 <= i < |kept| && Comparable(kept[i]) == Comparable(selectors[j])
    {
      SelectionKeepsKeys(selectors, Comparable, Comparable(selectors[j]));
    }
    if AllGood(c, query, selectors) {
      forall i | 0 <= i < |kept|
        ensures SelectorWrites(c, query, kept[i]).Success?
      {
        var j :| 0 <= j < |selectors| && Comparable(selectors[j]) == Comparable(kept[i]);
        SameComparableSameWrites(c, query, selectors[j], kept[i]);
      }
    }
    if AllGood(c, query, kept) {
      forall j | 0 <= j < |selectors|
        ensures SelectorWrites(c, query, selectors[j]).Success?
      {
        var i :| 0 <= i < |kept| && Comparable(kept[i]) == Comparable(selectors[j]);
        SameComparableSameWrites(c, query, selectors[j], kept[i]);
      }
    }
  }

  /** The writes of the kept selectors have the effect of the writes of all of them. */
  lemma {:induction false} SelectionKeepsEffect(c: Context, query: Answering, selectors: seq<Selector>, raw: Raw)
    requires AllGood(c, query, selectors) && AllGood(c, query, LastPerKey(selectors, Comparable))
    requires WellTyped(raw, c.secretTarget)
    ensures Apply(raw, AllWrites(c, query, LastPerKey(selectors, Comparable)))
            == Apply(raw, AllWrites(c, query, selectors))
    decreases selectors
  {
    if selectors != [] {
      var tail := selectors[1..];
      assert forall k :: 0 <= k < |tail| ==> tail[k] == selectors[k + 1];
      var first, rest := SelectorWrites(c, query, selectors[0]).value, AllWrites(c, query, tail);
      SelectionKeepsGood(c, query, tail);
      AllWritesAreWellTyped(c, query, tail);
      ExpandIsWellTyped(c, LoadSelector(c, query, selectors[0]).value, true);
      if HasKey(tail, Comparable, Comparable(selectors[0])) {
        RepeatedSelectorIsOverwritten(c, query, selectors[0], tail, raw);
        assert LastPerKey(selectors, Comparable) == LastPerKey(tail, Comparable);
        SelectionKeepsEffect(c, query, tail, raw);
      } else {
        ApplyIsWellTyped(raw, c.secretTarget, first);
        SelectionKeepsEffect(c, query, tail, Apply(raw, first));
        ApplyConcat(raw, first, rest);
        var keptTail := LastPerKey(tail, Comparable);
        assert LastPerKey(selectors, Comparable) == [selectors[0]] + keptTail;
        assert ([selectors[0]] + keptTail)[1..] == keptTail;
        ApplyConcat(raw, first, AllWrites(c, query, keptTail));
      }
    }
  }

  lemma RepeatedSelectorIsOverwritten(c: Context, query: Answering, s: Selector, tail: seq<Selector>, raw: Raw)
    requires SelectorWrites(c, query, s).Success? && AllGood(c, query, tail)
    requires WellTyped(raw, c.secretTarget) && HasKey(tail, Comparable, Comparable(s))
    ensures Apply(raw, SelectorWrites(c, query, s).value + AllWrites(c, query, tail))
            == Apply(raw, AllWrites(c, query, tail))
  {
    var first, rest := SelectorWrites(c, query, s).value, AllWrites(c, query, tail);
    var j :| 0 <= j < |tail| && Comparable(tail[j]) == Comparable(s);
    SameComparableSameWrites(c, query, tail[j], s);
    forall i | 0 <= i < |first|
      ensures Assigns(rest, SlotOf(first[i]))
    {
      WritesOfMember(c, query, tail, j, SlotOf(first[i]));
    }
    AllWritesAreWellTyped(c, query, tail);
    ExpandIsWellTyped(c, LoadSelector(c, query, s).value, true);
    OverwrittenHasNoEffect(raw, c.secretTarget, first, rest);
  }

  /** Same outcome: the same maps, or a failure of both. */
  ghost predicate SameOutcome<R, E>(a: Result<R, E>, b: Result<R, E>) {
    (a.Success? <==> b.Success?) && (a.Success? ==> a.value == b.value)
  }

  /** For a fixed store and a non-empty list, loading the deduplicated selectors gives the
      key-value, content-type and Key Vault maps that loading all of them gives. */
  lemma DeduplicationPreservesMeaning(c: Context, query: Answering, selectors: seq<Selector>)
    requires selectors != []
    ensures SameOutcome(CreateRaw(c, query, Deduplicated(selectors)), CreateRaw(c, query, selectors))
  {
    CreateRawIsApply(c, query, selectors);
    CreateRawIsApply(c, query, Deduplicated(selectors));
    SelectionKeepsGood(c, query, selectors);
    if AllGood(c, query, selectors) {
      SelectionKeepsEffect(c, query, selectors, EmptyRaw(c.secretTarget));
    }
  }
}
