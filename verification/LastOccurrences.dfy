/** The "last one wins" selection that several loops of the loader compute backwards. */
module LastOccurrences {

  ghost predicate HasKey<T, K>(s: seq<T>, key: T -> K, k: K) {
    exists i :: 0 <= i < |s| && key(s[i]) == k
  }

  /** The elements of s whose key does not occur again later, in their original order. */
  ghost function LastPerKey<T, K>(s: seq<T>, key: T -> K): seq<T> {
    if s == [] then []
    else (if HasKey(s[1..], key, key(s[0])) then [] else [s[0]]) + LastPerKey(s[1..], key)
  }

  lemma LastPerKeyCons<T, K>(x: T, s: seq<T>, key: T -> K)
    ensures LastPerKey([x] + s, key) == (if HasKey(s, key, key(x)) then [] else [x]) + LastPerKey(s, key)
  {
    assert ([x] + s)[1..] == s;
  }

  /** i is the last position of its key. */
  ghost predicate IsLast<T, K>(s: seq<T>, key: T -> K, i: nat) {
    i < |s| && forall j :: i < j < |s| ==> key(s[j]) != key(s[i])
  }

  ghost function Shifted(ps: seq<nat>): (r: seq<nat>)
    ensures |r| == |ps|
    ensures forall i :: 0 <= i < |ps| ==> r[i] == ps[i] + 1
  {
    seq(|ps|, i requires 0 <= i < |ps| => ps[i] + 1)
  }

  /** The positions, in increasing order, at which a key occurs for the last time. */
  ghost function LastPositions<T, K>(s: seq<T>, key: T -> K): (ps: seq<nat>)
    ensures |ps| == |LastPerKey(s, key)|
  {
    if s == [] then []
    else (if HasKey(s[1..], key, key(s[0])) then [] else [0]) + Shifted(LastPositions(s[1..], key))
  }

  lemma LastInTail<T, K>(s: seq<T>, key: T -> K, i: nat)
    requires 0 < i < |s|
    ensures IsLast(s, key, i) <==> IsLast(s[1..], key, i - 1)
  {
    assert forall j :: 0 <= j < |s| - 1 ==> s[1..][j] == s[j + 1];
    if IsLast(s[1..], key, i - 1) {
      forall j | i < j < |s|
        ensures key(s[j]) != key(s[i])
      {
        assert key(s[1..][j - 1]) != key(s[1..][i - 1]);
      }
    }
  }

  lemma LastAtHead<T, K>(s: seq<T>, key: T -> K)
    requires s != []
    ensures IsLast(s, key, 0) <==> !HasKey(s[1..], key, key(s[0]))
  {
    assert forall j :: 0 <= j < |s| - 1 ==> s[1..][j] == s[j + 1];
    if !HasKey(s[1..], key, key(s[0])) {
      forall j | 0 < j < |s|
        ensures key(s[j]) != key(s[0])
      {
        assert key(s[1..][j - 1]) != key(s[0]);
      }
    }
  }

  /** The i-th selected element stands at a last position, after those selected before. */
  lemma {:induction false} SelectsOnlyLast<T, K>(s: seq<T>, key: T -> K, i: nat)
    requires i < |LastPositions(s, key)|
    ensures IsLast(s, key, LastPositions(s, key)[i])
    ensures LastPerKey(s, key)[i] == s[LastPositions(s, key)[i]]
    ensures i > 0 ==> LastPositions(s, key)[i - 1] < LastPositions(s, key)[i]
  {
    var later := LastPositions(s[1..], key);
    var shift := |LastPositions(s, key)| - |later|;
    if i >= shift {
      SelectsOnlyLast(s[1..], key, i - shift);
      LastInTail(s, key, later[i - shift] + 1);
    } else {
      LastAtHead(s, key);
    }
  }

  /** Every last position is selected. */
  lemma {:induction false} SelectsEveryLast<T, K>(s: seq<T>, key: T -> K, p: nat)
    requires IsLast(s, key, p)
    ensures exists i :: 0 <= i < |LastPositions(s, key)| && LastPositions(s, key)[i] == p
  {
    var later, ps := LastPositions(s[1..], key), LastPositions(s, key);
    LastAtHead(s, key);
    if p == 0 {
      assert ps[0] == 0;
    } else {
      LastInTail(s, key, p);
      SelectsEveryLast(s[1..], key, p - 1);
      var i :| 0 <= i < |later| && later[i] == p - 1;
      assert ps[i + |ps| - |later|] == p;
    }
  }

  lemma {:induction false} SelectionKeepsKeys<T, K>(s: seq<T>, key: T -> K, k: K)
    ensures HasKey(LastPerKey(s, key), key, k) <==> HasKey(s, key, k)
  {
    if s != [] {
      SelectionKeepsKeys(s[1..], key, k);
      var r, later := LastPerKey(s, key), LastPerKey(s[1..], key);
      assert forall i :: 0 <= i < |s[1..]| ==> s[1..][i] == s[i + 1];
      var shift := |r| - |later|;
      if HasKey(r, key, k) {
        var i :| 0 <= i < |r| && key(r[i]) == k;
        if i >= shift {
          assert key(later[i - shift]) == k;
        } else {
          assert r[i] == s[0];
        }
      }
      if HasKey(later, key, k) {
        var i :| 0 <= i < |s[1..]| && key(s[1..][i]) == k;
        assert key(s[i + 1]) == k;
        var j :| 0 <= j < |later| && key(later[j]) == k;
        assert r[j + shift] == later[j];
      } else if HasKey(s, key, k) {
        assert key(s[0]) == k && r[0] == s[0];
      }
    }
  }

  ghost predicate NoDuplicates<T, K>(s: seq<T>, key: T -> K) {
    forall i, j :: 0 <= i < j < |s| ==> key(s[i]) != key(s[j])
  }

  /** No key is selected twice. */
  lemma {:induction false} SelectionHasNoDuplicates<T, K>(s: seq<T>, key: T -> K)
    ensures NoDuplicates(LastPerKey(s, key), key)
  {
    if s != [] {
      var r, later := LastPerKey(s, key), LastPerKey(s[1..], key);
      SelectionHasNoDuplicates(s[1..], key);
      SelectionKeepsKeys(s[1..], key, key(s[0]));
      if r != later {
        assert !HasKey(later, key, key(s[0]));
        assert forall j :: 0 <= j < |later| ==> key(later[j]) != key(s[0]);
      }
    }
  }

  /** A sequence without duplicate keys is selected whole. */
  lemma {:induction false} DistinctIsSelectedWhole<T, K>(s: seq<T>, key: T -> K)
    requires NoDuplicates(s, key)
    ensures LastPerKey(s, key) == s
  {
    if s != [] {
      assert forall j :: 0 <= j < |s| - 1 ==> s[1..][j] == s[j + 1];
      DistinctIsSelectedWhole(s[1..], key);
    }
  }

  /** Each key of s is selected exactly once, with its last element; selecting again
      changes nothing. */
  lemma SelectionIsExact<T, K>(s: seq<T>, key: T -> K)
    ensures NoDuplicates(LastPerKey(s, key), key)
    ensures forall k :: HasKey(LastPerKey(s, key), key, k) <==> HasKey(s, key, k)
    ensures forall p: nat :: IsLast(s, key, p) ==> s[p] in LastPerKey(s, key)
    ensures LastPerKey(LastPerKey(s, key), key) == LastPerKey(s, key)
  {
    SelectionHasNoDuplicates(s, key);
    DistinctIsSelectedWhole(LastPerKey(s, key), key);
    forall k
      ensures HasKey(LastPerKey(s, key), key, k) <==> HasKey(s, key, k)
    {
      SelectionKeepsKeys(s, key, k);
    }
    forall p: nat | IsLast(s, key, p)
      ensures s[p] in LastPerKey(s, key)
    {
      SelectsEveryLast(s, key, p);
      var i :| 0 <= i < |LastPositions(s, key)| && LastPositions(s, key)[i] == p;
      SelectsOnlyLast(s, key, i);
      assert LastPerKey(s, key)[i] == s[p];
    }
  }
}
