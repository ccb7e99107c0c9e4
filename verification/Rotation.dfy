/** In-place reversal and rotation (rotate and reverseClients in
    internal/loader/configuration_setting_loader.go), and the round-robin order they give. */
module Rotation {

  /** s with the segment from first to last reversed; last < first is an empty segment. */
  function SegmentReversed<T>(s: seq<T>, first: nat, last: int): (r: seq<T>)
    requires first <= last + 1 <= |s|
    ensures |r| == |s|
  {
    seq(|s|, k requires 0 <= k < |s| => if first <= k <= last then s[first + last - k] else s[k])
  }

  lemma AppendReversed<T>(s: seq<T>, x: T)
    ensures SegmentReversed(s + [x], 0, |s|) == [x] + SegmentReversed(s, 0, |s| - 1)
  {
  }

  /** Swaps from both ends towards the middle. */
  method ReverseSegment<T>(a: array<T>, first: nat, last: int)
    requires first <= last + 1 <= a.Length
    modifies a
    ensures a[..] == SegmentReversed(old(a[..]), first, last)
  {
    ghost var was := a[..];
    var start, end := first, last;
    while start < end
      invariant first <= start <= end + 1
      invariant start + end == first + last
      invariant end <= last
      invariant forall k :: 0 <= k < first || start <= k <= end || last < k < a.Length ==> a[k] == was[k]
      invariant forall k :: first <= k < start || end < k <= last ==> a[k] == was[first + last - k]
    {
      a[start], a[end] := a[end], a[start];
      start := start + 1;
      end := end - 1;
    }
    assert forall k :: start <= k <= end ==> was[k] == was[first + last - k];
  }

  function RotatedLeft<T>(s: seq<T>, k: nat): seq<T>
    requires k <= |s|
  {
    s[k..] + s[..k]
  }

  /** Reversing the whole, then both parts, rotates. */
  lemma ThreeReversals<T>(s: seq<T>, k: nat)
    requires k < |s|
    ensures var n := |s|;
            var parts := SegmentReversed(SegmentReversed(s, 0, n - 1), 0, n - k - 1);
            SegmentReversed(parts, n - k, n - 1) == RotatedLeft(s, k)
  {
    var n := |s|;
    var whole := SegmentReversed(s, 0, n - 1);
    var parts := SegmentReversed(whole, 0, n - k - 1);
    assert forall i :: 0 <= i < n - k ==> parts[i] == whole[n - k - 1 - i] == s[k + i];
    assert forall i :: n - k <= i < n ==> parts[i] == whole[i] == s[n - 1 - i];
  }

  lemma SmallRemainder(k: nat, n: nat)
    requires k < n
    ensures k % n == k
  {
  }

  lemma NoRotation<T>(s: seq<T>)
    ensures RotatedLeft(s, 0) == s
  {
  }

  /** Rotation to the left by three reversals. */
  method Rotate<T>(clients: array<T>, positions: nat)
    requires clients.Length > 0
    modifies clients
    ensures clients[..] == RotatedLeft(old(clients[..]), positions % clients.Length)
  {
    hide SegmentReversed, RotatedLeft;
    var n := clients.Length;
    var k := positions % n;
    NoRotation(clients[..]);
    if k == 0 {
      return;
    }
    ThreeReversals(clients[..], k);
    ReverseSegment(clients, 0, n - 1);
    ReverseSegment(clients, 0, n - k - 1);
    ReverseSegment(clients, n - k, n - 1);
  }

  // ---------------------------------------------------------------- round robin

  /** One past the first position of `last`, or the length when it does not occur. */
  function NextIndex(endpoints: seq<string>, last: string): (i: nat)
    ensures i <= |endpoints|
    ensures last in endpoints ==> i > 0 && endpoints[i - 1] == last
    ensures last !in endpoints ==> i == |endpoints|
  {
    if endpoints == [] then 0
    else if endpoints[0] == last then 1
    else 1 + NextIndex(endpoints[1..], last)
  }

  /** The position that is tried first. */
  function FirstTried(endpoints: seq<string>, loadBalancing: bool, lastSuccessful: string): (i: nat)
    ensures endpoints != [] ==> i < |endpoints|
    ensures endpoints == [] ==> i == 0
  {
    if loadBalancing && lastSuccessful != "" && |endpoints| > 1 && NextIndex(endpoints, lastSuccessful) < |endpoints|
    then NextIndex(endpoints, lastSuccessful)
    else 0
  }

  /** Position i comes right after the first position of `last`. */
  ghost predicate IsNext(endpoints: seq<string>, last: string, i: nat) {
    0 < i < |endpoints| && endpoints[i - 1] == last && last !in endpoints[..i - 1]
  }

  /** The order in which a request tries what is available: from right after the first one of the
      endpoint that was the last to succeed, if load balancing is on and there is a next one, and
      as it is otherwise. */
  ghost predicate IsTryingOrder<T>(order: seq<T>, available: seq<T>, endpoints: seq<string>, loadBalancing: bool,
                                   last: string)
    requires |available| == |endpoints|
  {
    if loadBalancing && last != "" && exists i: nat :: IsNext(endpoints, last, i)
    then exists i: nat :: IsNext(endpoints, last, i) && order == available[i..] + available[..i]
    else order == available
  }

  lemma {:induction false} NextIndexExactly(endpoints: seq<string>, last: string)
    ensures forall i: nat :: IsNext(endpoints, last, i) <==> i == NextIndex(endpoints, last) < |endpoints|
  {
    if endpoints != [] && endpoints[0] != last {
      var rest := endpoints[1..];
      NextIndexExactly(rest, last);
      forall i: nat
        ensures IsNext(endpoints, last, i) <==> i == NextIndex(endpoints, last) < |endpoints|
      {
        if 1 < i < |endpoints| {
          assert endpoints[..i - 1] == [endpoints[0]] + rest[..i - 2];
          assert IsNext(endpoints, last, i) <==> IsNext(rest, last, i - 1);
        }
      }
    } else if endpoints != [] {
      forall i: nat
        ensures IsNext(endpoints, last, i) <==> i == 1 < |endpoints|
      {
        if 1 < i < |endpoints| {
          assert endpoints[..i - 1][0] == last;
        }
      }
    }
  }

  /** The position that is tried first makes that order. */
  lemma TriesInOrder<T>(available: seq<T>, endpoints: seq<string>, loadBalancing: bool, last: string)
    requires |available| == |endpoints|
    ensures IsTryingOrder(RotatedLeft(available, FirstTried(endpoints, loadBalancing, last)), available, endpoints,
                          loadBalancing, last)
  {
    NextIndexExactly(endpoints, last);
    var k := NextIndex(endpoints, last);
    if loadBalancing && last != "" && k < |endpoints| {
      assert IsNext(endpoints, last, k);
    }
  }

  ghost predicate Distinct<T>(s: seq<T>) {
    forall i, j :: 0 <= i < j < |s| ==> s[i] != s[j]
  }

  lemma RotationKeepsMembers<T>(s: seq<T>, k: nat)
    requires k <= |s|
    ensures forall i :: 0 <= i < |s| ==> RotatedLeft(s, k)[i] in s
    ensures Distinct(s) ==> Distinct(RotatedLeft(s, k))
  {
    var r := RotatedLeft(s, k);
    assert forall i :: 0 <= i < |s| ==> r[i] == s[if i < |s| - k then i + k else i - (|s| - k)];
  }

  /** The position that serves request number m when every request succeeds. */
  function Serving(endpoints: seq<string>, lastSuccessful: string, m: nat): (i: nat)
    requires endpoints != []
    ensures i < |endpoints|
  {
    if m == 0 then FirstTried(endpoints, true, lastSuccessful)
    else FirstTried(endpoints, true, endpoints[Serving(endpoints, lastSuccessful, m - 1)])
  }

  lemma NextIndexOfDistinct(endpoints: seq<string>, i: nat)
    requires i < |endpoints| && Distinct(endpoints)
    ensures NextIndex(endpoints, endpoints[i]) == i + 1
  {
    var j := NextIndex(endpoints, endpoints[i]);
    assert endpoints[j - 1] == endpoints[i];
  }

  /** Positions advance by one and wrap around, so d requests after one served by
      position s the position is s + d, less a full turn if need be. */
  lemma {:induction false} ServingAdvances(endpoints: seq<string>, lastSuccessful: string, from: nat, d: nat)
    requires |endpoints| >= 2 && Distinct(endpoints) && "" !in endpoints
    requires d <= |endpoints|
    ensures var s := Serving(endpoints, lastSuccessful, from);
            Serving(endpoints, lastSuccessful, from + d)
            == if s + d < |endpoints| then s + d else s + d - |endpoints|
  {
    hide Serving, Distinct;
    if d > 0 {
      ServingAdvances(endpoints, lastSuccessful, from, d - 1);
      ServesNext(endpoints, lastSuccessful, from + d);
    }
  }

  lemma ServesNext(endpoints: seq<string>, lastSuccessful: string, m: nat)
    requires |endpoints| >= 2 && Distinct(endpoints) && "" !in endpoints && m > 0
    ensures var s := Serving(endpoints, lastSuccessful, m - 1);
            Serving(endpoints, lastSuccessful, m) == if s + 1 < |endpoints| then s + 1 else 0
  {
    hide NextIndex;
    NextIndexOfDistinct(endpoints, Serving(endpoints, lastSuccessful, m - 1));
  }

  lemma ServedByDifferentClients(endpoints: seq<string>, lastSuccessful: string, from: nat, m: nat, m': nat)
    requires |endpoints| >= 2 && Distinct(endpoints) && "" !in endpoints
    requires from <= m < m' < from + |endpoints|
    ensures Serving(endpoints, lastSuccessful, m) != Serving(endpoints, lastSuccessful, m')
  {
    hide Serving, Distinct;
    ServingAdvances(endpoints, lastSuccessful, m, m' - m);
  }

  /** Fairness: with a constant list of two or more distinct named clients and no failure,
      any |endpoints| consecutive requests are served by each client exactly once. */
  lemma RoundRobinIsFair(endpoints: seq<string>, lastSuccessful: string, from: nat, client: nat)
    requires |endpoints| >= 2 && Distinct(endpoints) && "" !in endpoints && client < |endpoints|
    ensures exists m :: from <= m < from + |endpoints| && Serving(endpoints, lastSuccessful, m) == client
    ensures forall m, m' :: from <= m < m' < from + |endpoints| ==>
              Serving(endpoints, lastSuccessful, m) != Serving(endpoints, lastSuccessful, m')
  {
    var s := Serving(endpoints, lastSuccessful, from);
    var d := if client >= s then client - s else client + |endpoints| - s;
    ServingAdvances(endpoints, lastSuccessful, from, d);
    assert Serving(endpoints, lastSuccessful, from + d) == client;
    forall m, m' | from <= m < m' < from + |endpoints|
      ensures Serving(endpoints, lastSuccessful, m) != Serving(endpoints, lastSuccessful, m')
    {
      ServedByDifferentClients(endpoints, lastSuccessful, from, m, m');
    }
  }
}
