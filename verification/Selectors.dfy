/** Selectors: their comparable form (api/v1/azureappconfigurationprovider_types.go), and
    how the loader normalizes and deduplicates them
    (internal/loader/configuration_setting_loader.go). */
module Selectors {
  import opened Wrappers
  import opened SortedStrings
  import opened LastOccurrences
  import opened Rotation

  datatype Selector = Selector(
    keyFilter: Option<string>, labelFilter: Option<string>, snapshotName: Option<string>, tagFilters: seq<string>)

  /** `tagFilters` stands for the JSON text of the sorted tag list; JSON encoding and
      decoding of a list of strings are taken to be inverse to each other. */
  datatype ComparableSelector = ComparableSelector(
    keyFilter: Option<string>, labelFilter: Option<string>, snapshotName: Option<string>,
      tagFilters: Option<seq<string>>)

  const NULL_LABEL: string := "\0"

  function Comparable(s: Selector): ComparableSelector {
    ComparableSelector(s.keyFilter, s.labelFilter, s.snapshotName,
                       if s.tagFilters == [] then None else Some(Sort(s.tagFilters)))
  }

  method MakeComparable(selector: Selector) returns (comparable: ComparableSelector)
    ensures comparable == Comparable(selector)
  {
    comparable := ComparableSelector(None, None, None, None);
    if selector.keyFilter.Some? {
      comparable := comparable.(keyFilter := selector.keyFilter);
    }
    if selector.labelFilter.Some? {
      comparable := comparable.(labelFilter := selector.labelFilter);
    }
    if selector.snapshotName.Some? {
      comparable := comparable.(snapshotName := selector.snapshotName);
    }
    if |selector.tagFilters| > 0 {
      comparable := comparable.(tagFilters := Some(Sort(selector.tagFilters)));
    }
  }

  function FromComparable(c: ComparableSelector): Selector {
    Selector(c.keyFilter, c.labelFilter, c.snapshotName, c.tagFilters.GetOr([]))
  }

  /** Equal filters, and equal tag filters up to order. */
  ghost predicate Same(a: Selector, b: Selector) {
    && a.keyFilter == b.keyFilter && a.labelFilter == b.labelFilter && a.snapshotName == b.snapshotName
    && multiset(a.tagFilters) == multiset(b.tagFilters)
  }

  /** Rebuilding a selector from its comparable form loses nothing but the tag order. */
  lemma ComparableRoundTrip(s: Selector)
    ensures Same(FromComparable(Comparable(s)), s)
    ensures Comparable(FromComparable(Comparable(s))) == Comparable(s)
  {
    SortIsIdempotent(s.tagFilters);
  }

  /** Two selectors have the same comparable form exactly when they are the same. */
  lemma ComparableIsCanonical(a: Selector, b: Selector)
    ensures Comparable(a) == Comparable(b) <==> Same(a, b)
  {
    SortIsCanonical(a.tagFilters, b.tagFilters);
    assert |a.tagFilters| == |multiset(a.tagFilters)| && |b.tagFilters| == |multiset(b.tagFilters)|;
  }

  /** Compares sorted copies element by element. */
  method CompareTagFilters(a: seq<string>, b: seq<string>) returns (same: bool)
    ensures same <==> multiset(a) == multiset(b)
  {
    assert |a| == |multiset(a)| && |b| == |multiset(b)|;
    if |a| == 0 && |b| == 0 {
      return true;
    }
    if |a| != |b| {
      return false;
    }
    SortIsCanonical(a, b);
    same := EqualElements(Sort(a), Sort(b));
  }

  method EqualElements(a: seq<string>, b: seq<string>) returns (same: bool)
    requires |a| == |b|
    ensures same <==> a == b
  {
    var i := 0;
    while i < |a|
      invariant 0 <= i <= |a|
      invariant forall k :: 0 <= k < i ==> a[k] == b[k]
    {
      if a[i] != b[i] {
        return false;
      }
      i := i + 1;
    }
    same := true;
  }

  /** The elements at the positions that hold them first. */
  function FirstOccurrences(tags: seq<string>): seq<string> {
    if tags == [] then []
    else
      var (init, last) := (tags[..|tags| - 1], tags[|tags| - 1]);
      FirstOccurrences(init) + if last in init then [] else [last]
  }

  /** tags[i] is the first of its kind. */
  ghost predicate IsFirst(tags: seq<string>, i: nat) {
    i < |tags| && tags[i] !in tags[..i]
  }

  /** Each tag stays once. */
  lemma {:induction false} FirstOccurrencesAreExact(tags: seq<string>)
    ensures forall t :: t in FirstOccurrences(tags) <==> t in tags
    ensures Distinct(FirstOccurrences(tags))
  {
    if tags != [] {
      var init, last := tags[..|tags| - 1], tags[|tags| - 1];
      FirstOccurrencesAreExact(init);
      assert tags == init + [last];
      if last !in init {
        assert last !in FirstOccurrences(init);
      }
    }
  }

  /** a occurs first before b occurs first. */
  ghost predicate FirstBefore(tags: seq<string>, a: string, b: string) {
    exists i: nat, j: nat :: i < j && IsFirst(tags, i) && IsFirst(tags, j) && tags[i] == a && tags[j] == b
  }

  /** The tags stay in the order in which they first occur. */
  lemma {:induction false} FirstOccurrencesInOrder(tags: seq<string>, p: nat, q: nat)
    requires p < q < |FirstOccurrences(tags)|
    ensures FirstBefore(tags, FirstOccurrences(tags)[p], FirstOccurrences(tags)[q])
    decreases tags
  {
    var init, last := tags[..|tags| - 1], tags[|tags| - 1];
    var kept := FirstOccurrences(init);
    if q < |kept| {
      FirstOccurrencesInOrder(init, p, q);
      var i: nat, j: nat :| i < j && IsFirst(init, i) && IsFirst(init, j) && init[i] == kept[p] && init[j] == kept[q];
      FirstStaysFirst(tags, i);
      FirstStaysFirst(tags, j);
    } else {
      FirstOccurrencesAreExact(init);
      assert kept[p] in kept && kept[p] in init;
      var i := FirstIndex(init, kept[p]);
      FirstStaysFirst(tags, i);
      assert IsFirst(tags, |init|);
    }
  }

  lemma FirstStaysFirst(tags: seq<string>, i: nat)
    requires tags != [] && IsFirst(tags[..|tags| - 1], i)
    ensures IsFirst(tags, i) && tags[i] == tags[..|tags| - 1][i]
  {
    assert tags[..i] == tags[..|tags| - 1][..i];
  }

  lemma {:induction false} FirstIndex(tags: seq<string>, t: string) returns (i: nat)
    requires t in tags
    ensures IsFirst(tags, i) && tags[i] == t
  {
    i := 0;
    while tags[i] != t
      invariant i < |tags| && t !in tags[..i]
      decreases |tags| - i
    {
      assert tags[..i + 1] == tags[..i] + [tags[i]];
      assert t in tags[i + 1..] by {
        assert tags == tags[..i + 1] + tags[i + 1..];
      }
      i := i + 1;
    }
  }

  /** An absent or empty label becomes the null label, and repeated tags are dropped. */
  function Normalized(s: Selector): Selector {
    var labelFilter := if s.labelFilter.None? || s.labelFilter.value == "" then NULL_LABEL else s.labelFilter.value;
    s.(labelFilter := Some(labelFilter), tagFilters := FirstOccurrences(s.tagFilters))
  }

  /** An absent or empty label has become the null label, each tag is there once, where it first
      occurs, and nothing else has changed. */
  ghost predicate IsNormalized(before: Selector, after: Selector) {
    && after.keyFilter == before.keyFilter && after.snapshotName == before.snapshotName
    && after.labelFilter == (if before.labelFilter in {None, Some("")} then Some("\0") else before.labelFilter)
    && Distinct(after.tagFilters)
    && (forall t :: t in after.tagFilters <==> t in before.tagFilters)
    && forall p, q :: 0 <= p < q < |after.tagFilters| ==>
         FirstBefore(before.tagFilters, after.tagFilters[p], after.tagFilters[q])
  }

  lemma NormalizedExactly(before: Selector, after: Selector)
    requires after == Normalized(before)
    ensures IsNormalized(before, after)
  {
    FirstOccurrencesAreExact(before.tagFilters);
    forall p, q | 0 <= p < q < |after.tagFilters|
      ensures FirstBefore(before.tagFilters, after.tagFilters[p], after.tagFilters[q])
    {
      FirstOccurrencesInOrder(before.tagFilters, p, q);
    }
  }

  method NormalizeFilter(filters: seq<Selector>) returns (result: seq<Selector>)
    ensures |result| == |filters| && forall i :: 0 <= i < |filters| ==> result[i] == Normalized(filters[i])
    ensures forall i :: 0 <= i < |filters| ==> IsNormalized(filters[i], result[i])
  {
    hide IsNormalized, FirstOccurrences;
    result := [];
    for i := 0 to |filters|
      invariant |result| == i && forall k :: 0 <= k < i ==> result[k] == Normalized(filters[k])
      invariant forall k :: 0 <= k < i ==> IsNormalized(filters[k], result[k])
    {
      NormalizedExactly(filters[i], Normalized(filters[i]));
      var labelFilter := filters[i].labelFilter;
      if labelFilter.None? || |labelFilter.value| == 0 {
        labelFilter := Some(NULL_LABEL);
      }
      var tagFilters := DropRepeated(filters[i].tagFilters);
      result := result + [Selector(filters[i].keyFilter, labelFilter, filters[i].snapshotName, tagFilters)];
    }
  }

  method DropRepeated(tags: seq<string>) returns (result: seq<string>)
    ensures result == FirstOccurrences(tags)
  {
    result := [];
    for i := 0 to |tags|
      invariant result == FirstOccurrences(tags[..i])
    {
      assert tags[..i + 1][..i] == tags[..i];
      FirstOccurrencesAreExact(tags[..i]);
      if tags[i] !in result {
        result := result + [tags[i]];
      }
    }
    assert tags[..|tags|] == tags;
  }

  const WILDCARD: Selector := Selector(Some("*"), None, None, [])

  /** What deduplication returns: the last of each group of equal selectors, in order; the
      wildcard, without a label, when there is no selector at all. */
  ghost function Deduplicated(filters: seq<Selector>): seq<Selector> {
    if filters == [] then [WILDCARD] else LastPerKey(filters, Comparable)
  }

  /** Scans backwards, keeps what is not yet there, then reverses in place. */
  method DeduplicateFilters(filters: seq<Selector>) returns (result: seq<Selector>)
    ensures result == Deduplicated(filters)
  {
    NothingSelected(filters);
    hide Comparable, LastPerKey, HasSame, SegmentReversed;
    if |filters| == 0 {
      return [WILDCARD];
    }
    var kept: seq<Selector> := [];
    var i := |filters|;
    while i > 0
      invariant 0 <= i <= |filters|
      invariant SegmentReversed(kept, 0, |kept| - 1) == LastPerKey(filters[i..], Comparable)
    {
      i := i - 1;
      assert filters[i..] == [filters[i]] + filters[i + 1..];
      ReversedStep(kept, filters[i + 1..], filters[i]);
      var findDuplicate := ContainsSame(kept, filters[i]);
      if !findDuplicate {
        kept := kept + [filters[i]];
      }
    }
    assert filters[0..] == filters;
    result := ReversedInPlace(kept);
  }

  lemma NothingSelected(filters: seq<Selector>)
    ensures SegmentReversed<Selector>([], 0, -1) == LastPerKey(filters[|filters|..], Comparable)
    ensures filters[0..] == filters
  {
  }

  /** Reverses the slice in place; no one else holds it. */
  method ReversedInPlace(kept: seq<Selector>) returns (result: seq<Selector>)
    ensures result == SegmentReversed(kept, 0, |kept| - 1)
  {
    var arr := new Selector[|kept|](k requires 0 <= k < |kept| => kept[k]);
    assert arr[..] == kept;
    ReverseSegment(arr, 0, arr.Length - 1);
    result := arr[..];
  }

  ghost predicate HasSame(kept: seq<Selector>, x: Selector) {
    exists j :: 0 <= j < |kept| && Same(kept[j], x)
  }

  /** One step of the backward scan: x is kept when no equal of it has been kept. */
  lemma ReversedStep(kept: seq<Selector>, from: seq<Selector>, x: Selector)
    requires SegmentReversed(kept, 0, |kept| - 1) == LastPerKey(from, Comparable)
    ensures HasSame(kept, x) ==> SegmentReversed(kept, 0, |kept| - 1) == LastPerKey([x] + from, Comparable)
    ensures !HasSame(kept, x) ==> SegmentReversed(kept + [x], 0, |kept|) == LastPerKey([x] + from, Comparable)
  {
    ReversedHasSame(kept, from, x);
    LastPerKeyCons(x, from, Comparable);
    AppendReversed(kept, x);
  }

  /** A selection, reversed, has an equal of x exactly when what it was selected from has. */
  lemma ReversedHasSame(kept: seq<Selector>, from: seq<Selector>, x: Selector)
    requires SegmentReversed(kept, 0, |kept| - 1) == LastPerKey(from, Comparable)
    ensures HasKey(from, Comparable, Comparable(x)) <==> HasSame(kept, x)
  {
    hide Comparable, LastPerKey;
    var selected := LastPerKey(from, Comparable);
    SelectionKeepsKeys(from, Comparable, Comparable(x));
    forall j | 0 <= j < |kept|
      ensures Same(kept[j], x) <==> Comparable(selected[|kept| - 1 - j]) == Comparable(x)
    {
      ComparableIsCanonical(kept[j], x);
    }
    if HasKey(selected, Comparable, Comparable(x)) {
      var i :| 0 <= i < |selected| && Comparable(selected[i]) == Comparable(x);
      assert Same(kept[|kept| - 1 - i], x);
    }
  }

  /** The inner comparison loop. */
  method ContainsSame(result: seq<Selector>, x: Selector) returns (findDuplicate: bool)
    ensures findDuplicate <==> HasSame(result, x)
  {
    findDuplicate := false;
    var j := 0;
    while j < |result|
      invariant 0 <= j <= |result|
      invariant forall k :: 0 <= k < j ==> !Same(result[k], x)
    {
      if result[j].keyFilter == x.keyFilter && result[j].labelFilter == x.labelFilter &&
         result[j].snapshotName == x.snapshotName
      {
        var sameTags := CompareTagFilters(result[j].tagFilters, x.tagFilters);
        if sameTags {
          return true;
        }
      }
      j := j + 1;
    }
  }
}
