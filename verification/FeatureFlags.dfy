/** Deduplication of loaded feature flags (getFeatureFlagSettings in
    internal/loader/configuration_setting_loader.go). */
module FeatureFlags {
  import opened Wrappers
  import opened LastOccurrences
  import opened Rotation

  /** A loaded feature flag: its key and what decoding its value gives, if it is valid JSON,
      with the telemetry metadata filled in. */
  datatype Flag<D> = Flag(key: string, decoded: Option<D>)

  ghost function Selected<D>(flags: seq<Flag<D>>): seq<Flag<D>> {
    LastPerKey(flags, (f: Flag<D>) => f.key)
  }

  /** The flags at the positions behind which their keys do not occur any more, in order. */
  lemma SelectedAreLast<D>(flags: seq<Flag<D>>) returns (ps: seq<nat>)
    ensures |ps| == |Selected(flags)| && forall i :: 0 < i < |ps| ==> ps[i - 1] < ps[i]
    ensures forall i :: 0 <= i < |ps| ==> ps[i] < |flags| && Selected(flags)[i] == flags[ps[i]]
    ensures forall p: nat :: p in ps <==> p < |flags| && forall j :: p < j < |flags| ==> flags[j].key != flags[p].key
  {
    var key := (f: Flag<D>) => f.key;
    ps := LastPositions(flags, key);
    forall i | 0 <= i < |ps|
      ensures IsLast(flags, key, ps[i]) && Selected(flags)[i] == flags[ps[i]] && (i > 0 ==> ps[i - 1] < ps[i])
    {
      SelectsOnlyLast(flags, key, i);
    }
    forall p: nat
      ensures p in ps <==> IsLast(flags, key, p)
    {
      if IsLast(flags, key, p) {
        SelectsEveryLast(flags, key, p);
      }
    }
  }

  /** The decoded documents of the selected flags. */
  ghost function Documents<D>(flags: seq<Flag<D>>): seq<D>
    requires forall f :: f in flags ==> f.decoded.Some?
  {
    seq(|flags|, i requires 0 <= i < |flags| => assert flags[i] in flags; flags[i].decoded.value)
  }

  /** The flags from position i on have been scanned: their keys, and, last first, the documents of
      those selected, all of which can be decoded. */
  ghost predicate Scanned<D>(flags: seq<Flag<D>>, i: nat, exist: set<string>, collected: seq<D>)
    requires i <= |flags|
  {
    var key := (f: Flag<D>) => f.key;
    && (forall k :: k in exist <==> HasKey(flags[i..], key, k))
    && (forall f :: f in LastPerKey(flags[i..], key) ==> f.decoded.Some?)
    && SegmentReversed(collected, 0, |collected| - 1) == Documents(LastPerKey(flags[i..], key))
  }

  lemma NothingScanned<D>(flags: seq<Flag<D>>)
    ensures Scanned(flags, |flags|, {}, [])
  {
    assert flags[|flags|..] == [];
  }

  lemma AllScanned<D>(flags: seq<Flag<D>>, exist: set<string>, collected: seq<D>)
    requires Scanned(flags, 0, exist, collected)
    ensures forall f :: f in Selected(flags) ==> f.decoded.Some?
    ensures SegmentReversed(collected, 0, |collected| - 1) == Documents(Selected(flags))
  {
    assert flags[0..] == flags;
  }

  /** One flag more: if its key is new it is selected. */
  lemma ScanOne<D>(flags: seq<Flag<D>>, i: nat, exist: set<string>, collected: seq<D>)
    requires i < |flags| && Scanned(flags, i + 1, exist, collected)
    ensures var flag := flags[i];
            if flag.key in exist then Scanned(flags, i, exist, collected)
            else if flag.decoded.Some? then Scanned(flags, i, exist + {flag.key}, collected + [flag.decoded.value])
            else flag in Selected(flags)
  {
    hide HasKey, SegmentReversed, LastPerKey;
    var key, flag, later := (f: Flag<D>) => f.key, flags[i], flags[i + 1..];
    assert flags[i..] == [flag] + later;
    LastPerKeyCons(flag, later, key);
    HasKeyCons(flag, later, key);
    if flag.key !in exist {
      if flag.decoded.None? {
        SelectionGrows(flags, i, key, flag);
      } else {
        AppendReversed(collected, flag.decoded.value);
        assert Documents([flag] + LastPerKey(later, key)) == [flag.decoded.value] + Documents(LastPerKey(later, key));
      }
    }
  }

  /** Scans backwards with a table of the keys seen, then reverses in place. Only a flag that
      is kept is decoded, so only such a flag can fail. */
  method Deduplicate<D>(flags: seq<Flag<D>>) returns (deduplicated: Option<seq<D>>)
    ensures deduplicated.Some? <==> forall f :: f in Selected(flags) ==> f.decoded.Some?
    ensures deduplicated.Some? ==> deduplicated.value == Documents(Selected(flags))
  {
    hide Scanned;
    var featureFlagExist: set<string> := {};
    var collected: seq<D> := [];
    var i := |flags|;
    NothingScanned(flags);
    while i > 0
      invariant 0 <= i <= |flags|
      invariant Scanned(flags, i, featureFlagExist, collected)
    {
      i := i - 1;
      var flag := flags[i];
      ScanOne(flags, i, featureFlagExist, collected);
      if flag.key !in featureFlagExist {
        featureFlagExist := featureFlagExist + {flag.key};
        if flag.decoded.None? {
          return None;
        }
        collected := collected + [flag.decoded.value];
      }
    }
    AllScanned(flags, featureFlagExist, collected);
    var arr := new D[|collected|](k requires 0 <= k < |collected| => collected[k]);
    assert arr[..] == collected;
    ReverseSegment(arr, 0, arr.Length - 1);
    deduplicated := Some(arr[..]);
  }

  /** What is selected from a suffix is selected from the whole. */
  lemma {:induction false} SelectionGrows<D>(flags: seq<Flag<D>>, i: nat, key: Flag<D> -> string, f: Flag<D>)
    requires i <= |flags| && f in LastPerKey(flags[i..], key)
    ensures f in LastPerKey(flags, key)
    decreases i
  {
    if i == 0 {
      assert flags[0..] == flags;
    } else {
      assert flags[i - 1..][1..] == flags[i..];
      SelectionGrows(flags, i - 1, key, f);
    }
  }

  lemma HasKeyCons<D>(x: Flag<D>, s: seq<Flag<D>>, key: Flag<D> -> string)
    ensures forall k :: HasKey([x] + s, key, k) <==> key(x) == k || HasKey(s, key, k)
  {
    forall k
      ensures HasKey([x] + s, key, k) <==> key(x) == k || HasKey(s, key, k)
    {
      if key(x) == k {
        assert key(([x] + s)[0]) == k;
      } else if HasKey(s, key, k) {
        var i :| 0 <= i < |s| && key(s[i]) == k;
        assert key(([x] + s)[i + 1]) == k;
      }
    }
  }
}
