/** Flat settings to a hierarchical document (internal/loader/tree.go). */
module Tree {
  import opened Sets
  import opened Wrappers
  import opened Decimal

  /** A decoded JSON value. The two scalars without structure that matter here are null and
      text; numbers and booleans are `Atom`s. */
  datatype Json =
    | Null
    | Text(text: string)
    | Atom(id: int)
    | Arr(items: seq<Json>)
    | Obj(fields: map<string, Json>)

  predicate IsScalar(v: Json) { !v.Arr? && !v.Obj? }

  /** A node: children by name, and a value, which is null until a scalar is set. */
  datatype Tree = Tree(children: map<string, Tree>, value: Json)

  const EMPTY: Tree := Tree(map[], Null)

  function Child(t: Tree, name: string): Tree {
    if name in t.children then t.children[name] else EMPTY
  }

  // ---------------------------------------------------------------- insertion

  /** The value placed at a node. The fields of an object are placed at the children they
      name; the order in which they are visited does not show. */
  function InsertValue(t: Tree, v: Json): Tree
    decreases v, 1
  {
    match v
    case Obj(m) =>
      t.(children := map k | k in t.children.Keys + m.Keys ::
                       if k in m then InsertValue(Child(t, k), m[k]) else t.children[k])
    case Arr(s) => InsertItems(t, v, |s|)
    case _ => t.(value := v)
  }

  /** The first n items of an array, placed at the children named by their indices. */
  function InsertItems(t: Tree, v: Json, n: nat): Tree
    requires v.Arr? && n <= |v.items|
    decreases v, 0, n
  {
    if n == 0 then t
    else
      var before := InsertItems(t, v, n - 1);
      var name := Itoa(n - 1);
      before.(children := before.children[name := InsertValue(Child(before, name), v.items[n - 1])])
  }

  /** The value placed at the end of a path, creating nodes on the way. */
  function Place(t: Tree, path: seq<string>, v: Json): Tree
    decreases path
  {
    if path == [] then InsertValue(t, v)
    else t.(children := t.children[path[0] := Place(Child(t, path[0]), path[1..], v)])
  }

  /** Inserting at the empty path does nothing. */
  function Insert(t: Tree, path: seq<string>, v: Json): Tree {
    if path == [] then t else Place(t, path, v)
  }

  // ---------------------------------------------------------------- what a node holds

  /** The value of the node at a path, if there is such a node. */
  function At(t: Tree, path: seq<string>): Option<Json>
    decreases path
  {
    if path == [] then Some(t.value)
    else if path[0] in t.children then At(t.children[path[0]], path[1..])
    else None
  }

  lemma AtSingle(t: Tree, name: string)
    ensures At(t, [name]).Some? <==> name in t.children
  {
    assert [name][0] == name && [name][1..] == [];
  }

  /** Trees that hold the same at every path are equal. */
  lemma {:induction false} SameEverywhereIsEqual(a: Tree, b: Tree)
    requires forall p :: At(a, p) == At(b, p)
    ensures a == b
    decreases a
  {
    assert At(a, []) == At(b, []);
    forall k
      ensures k in a.children <==> k in b.children
    {
      AtSingle(a, k);
      AtSingle(b, k);
      assert At(a, [k]) == At(b, [k]);
    }
    forall k | k in a.children
      ensures a.children[k] == b.children[k]
    {
      forall p
        ensures At(a.children[k], p) == At(b.children[k], p)
      {
        assert ([k] + p)[1..] == p;
        assert At(a, [k] + p) == At(b, [k] + p);
      }
      SameEverywhereIsEqual(a.children[k], b.children[k]);
    }
    assert a.children == b.children;
  }

  /** The field or item of a composite value that a child name selects on insertion. */
  function Field(v: Json, name: string): (f: Option<Json>)
    ensures f.Some? ==> f.value < v
  {
    match v
    case Obj(m) => if name in m then Some(m[name]) else None
    case Arr(s) =>
      var i := Atoi(name);
      if i.Some? && 0 <= i.value < |s| && name == Itoa(i.value) then Some(s[i.value]) else None
    case _ => None
  }

  /** The scalar that v puts at a path. */
  function LeafAt(v: Json, path: seq<string>): Option<Json>
    decreases path
  {
    if path == [] then (if IsScalar(v) then Some(v) else None)
    else
      var f := Field(v, path[0]);
      if f.Some? then LeafAt(f.value, path[1..]) else None
  }

  /** v makes sure that there is a node at a path. */
  predicate Touches(v: Json, path: seq<string>)
    decreases path
  {
    path == [] || (Field(v, path[0]).Some? && Touches(Field(v, path[0]).value, path[1..]))
  }

  /** What a node holds after a write that puts `leaf` there or merely touches it. */
  function Written(before: Option<Json>, leaf: Option<Json>, touched: bool): Option<Json> {
    if leaf.Some? then leaf
    else if touched then Some(before.GetOr(Null))
    else before
  }

  lemma {:induction false} LeafIsTouched(v: Json, path: seq<string>)
    requires LeafAt(v, path).Some?
    ensures Touches(v, path)
  {
    if path != [] {
      LeafIsTouched(Field(v, path[0]).value, path[1..]);
    }
  }

  lemma {:induction false} ItemsChild(t: Tree, v: Json, n: nat, name: string)
    requires v.Arr? && n <= |v.items|
    ensures InsertItems(t, v, n).value == t.value
    ensures var i, c := Atoi(name), InsertItems(t, v, n).children;
            if i.Some? && 0 <= i.value < n && name == Itoa(i.value)
            then name in c && c[name] == InsertValue(Child(t, name), v.items[i.value])
            else (name in c <==> name in t.children) && (name in c ==> c[name] == t.children[name])
  {
    hide Atoi, Itoa, InsertValue;
    if n > 0 {
      ItemsChild(t, v, n - 1, name);
      AtoiOfItoa(n - 1);
    }
  }

  /** The child of a node after a composite value was placed at the node. */
  lemma CompositeChild(t: Tree, v: Json, name: string)
    requires !IsScalar(v)
    ensures InsertValue(t, v).value == t.value
    ensures var f, c := Field(v, name), InsertValue(t, v).children;
            if f.Some? then name in c && c[name] == InsertValue(Child(t, name), f.value)
            else (name in c <==> name in t.children) && (name in c ==> c[name] == t.children[name])
  {
    if v.Arr? {
      ItemsChild(t, v, |v.items|, name);
    }
  }

  lemma AtEmpty(path: seq<string>)
    ensures At(EMPTY, path) == if path == [] then Some(Null) else None
  {
  }

  lemma AtChild(t: Tree, path: seq<string>)
    requires path != []
    ensures At(t, path).GetOr(Null) == At(Child(t, path[0]), path[1..]).GetOr(Null)
    ensures path[0] in t.children ==> At(t, path) == At(Child(t, path[0]), path[1..])
    ensures path[0] !in t.children && path[1..] != [] ==> At(Child(t, path[0]), path[1..]) == None == At(t, path)
  {
    AtEmpty(path[1..]);
  }

  lemma {:induction false} AtInsertValue(t: Tree, v: Json, path: seq<string>)
    ensures At(InsertValue(t, v), path) == Written(At(t, path), LeafAt(v, path), Touches(v, path))
    decreases path
  {
    if IsScalar(v) {
    } else {
      if path == [] {
        CompositeChild(t, v, "");
      } else {
        CompositeChild(t, v, path[0]);
        AtChild(t, path);
        var f := Field(v, path[0]);
        if f.Some? {
          AtInsertValue(Child(t, path[0]), f.value, path[1..]);
          if path[1..] == [] {
            assert Touches(f.value, path[1..]);
          }
        }
      }
    }
  }

  // ---------------------------------------------------------------- settings

  /** A split key and the decoded value. */
  datatype Setting = Setting(path: seq<string>, value: Json)

  /** The scalar that a setting puts at a path. */
  function LeafOf(s: Setting, path: seq<string>): Option<Json> {
    if s.path != [] && s.path <= path then LeafAt(s.value, path[|s.path|..]) else None
  }

  /** A setting makes sure that there is a node at a path: a prefix of its own path, or a
      place within its value. */
  predicate TouchedBy(s: Setting, path: seq<string>) {
    s.path != [] && (path <= s.path || (s.path <= path && Touches(s.value, path[|s.path|..])))
  }

  lemma {:induction false} AtPlace(t: Tree, s: Setting, path: seq<string>)
    requires s.path != []
    ensures At(Place(t, s.path, s.value), path) == Written(At(t, path), LeafOf(s, path), TouchedBy(s, path))
    decreases s.path
  {
    if path != [] {
      var name, rest := s.path[0], s.path[1..];
      if path[0] == name {
        AtChild(t, path);
        var child := Child(t, name);
        assert s.path == [name] + rest && path == [name] + path[1..];
        assert s.path <= path <==> rest <= path[1..];
        assert path <= s.path <==> path[1..] <= rest;
        if rest == [] {
          assert path[|s.path|..] == path[1..];
          AtInsertValue(child, s.value, path[1..]);
          if path[1..] == [] {
            assert Touches(s.value, path[1..]);
          }
        } else {
          var inner := Setting(rest, s.value);
          AtPlace(child, inner, path[1..]);
          if s.path <= path {
            assert path[|s.path|..] == path[1..][|rest|..];
          }
        }
      } else {
        assert !(s.path <= path) && !(path <= s.path);
      }
    } else {
      assert !(s.path <= path);
    }
  }

  /** What inserting one setting does to every node: it writes its leaves, creates the nodes
      it touches and leaves the rest alone. */
  lemma AtInsert(t: Tree, s: Setting, path: seq<string>)
    ensures At(Insert(t, s.path, s.value), path) == Written(At(t, path), LeafOf(s, path), TouchedBy(s, path))
  {
    if s.path != [] {
      AtPlace(t, s, path);
    }
  }

  function InsertAll(t: Tree, settings: seq<Setting>): Tree
    decreases settings
  {
    if settings == [] then t
    else InsertAll(Insert(t, settings[0].path, settings[0].value), settings[1..])
  }

  /** No two settings put different scalars at one path. */
  ghost predicate Compatible(a: Setting, b: Setting) {
    forall p :: LeafOf(a, p).Some? && LeafOf(b, p).Some? ==> LeafOf(a, p) == LeafOf(b, p)
  }

  ghost predicate AllCompatible(settings: seq<Setting>) {
    forall a, b :: a in settings && b in settings ==> Compatible(a, b)
  }

  ghost predicate SomeLeaf(settings: seq<Setting>, path: seq<string>) {
    exists s :: s in settings && LeafOf(s, path).Some?
  }

  ghost predicate SomeTouch(settings: seq<Setting>, path: seq<string>) {
    exists s :: s in settings && TouchedBy(s, path)
  }

  /** After all insertions a node holds the one scalar put there, else what it held before. */
  lemma {:induction false} AtInsertAll(t: Tree, settings: seq<Setting>, path: seq<string>)
    requires AllCompatible(settings)
    ensures forall s :: s in settings && LeafOf(s, path).Some? ==> At(InsertAll(t, settings), path) == LeafOf(s, path)
    ensures !SomeLeaf(settings, path) ==>
              At(InsertAll(t, settings), path) == if SomeTouch(settings, path) then Some(At(t, path).GetOr(Null))
                else At(t, path)
    decreases settings
  {
    if settings != [] {
      var s, rest := settings[0], settings[1..];
      var next := Insert(t, s.path, s.value);
      assert forall x :: x in settings <==> x == s || x in rest;
      AtInsert(t, s, path);
      AtInsertAll(next, rest, path);
      if LeafOf(s, path).Some? {
        forall x | x in settings && LeafOf(x, path).Some?
          ensures At(InsertAll(t, settings), path) == LeafOf(x, path)
        {
          assert Compatible(s, x);
          if !SomeLeaf(rest, path) {
            assert x == s;
          } else {
            var y :| y in rest && LeafOf(y, path).Some?;
            assert Compatible(s, y);
          }
        }
      }
    }
  }

  /** Order independence: settings whose leaves do not clash build the same tree in whatever
      order they are inserted, also when one path is a prefix of another. */
  lemma InsertionOrderDoesNotMatter(t: Tree, a: seq<Setting>, b: seq<Setting>)
    requires multiset(a) == multiset(b) && AllCompatible(a)
    ensures InsertAll(t, a) == InsertAll(t, b)
  {
    assert forall s :: s in a <==> s in multiset(a);
    assert forall s :: s in b <==> s in multiset(b);
    assert forall s :: s in a <==> s in b;
    forall p
      ensures At(InsertAll(t, a), p) == At(InsertAll(t, b), p)
    {
      AtInsertAll(t, a, p);
      AtInsertAll(t, b, p);
      assert SomeLeaf(a, p) <==> SomeLeaf(b, p);
      assert SomeTouch(a, p) <==> SomeTouch(b, p);
    }
    SameEverywhereIsEqual(InsertAll(t, a), InsertAll(t, b));
  }

  lemma InsertTwo(t: Tree, a: Setting, b: Setting)
    ensures InsertAll(t, [a, b]) == Insert(Insert(t, a.path, a.value), b.path, b.value)
  {
    assert [a, b][1..] == [b];
    var next := Insert(t, a.path, a.value);
    assert InsertAll(next, [b]) == InsertAll(Insert(next, b.path, b.value), []);
  }

  /** Two insertions commute exactly when the settings put no different scalars at a path. */
  lemma InsertionsCommuteExactly(t: Tree, a: Setting, b: Setting)
    ensures InsertAll(t, [a, b]) == InsertAll(t, [b, a]) <==> Compatible(a, b)
  {
    if Compatible(a, b) {
      InsertionOrderDoesNotMatter(t, [a, b], [b, a]);
    } else {
      var p :| LeafOf(a, p).Some? && LeafOf(b, p).Some? && LeafOf(a, p) != LeafOf(b, p);
      InsertTwo(t, a, b);
      InsertTwo(t, b, a);
      AtInsert(Insert(t, a.path, a.value), b, p);
      AtInsert(Insert(t, b.path, b.value), a, p);
    }
  }

  // ---------------------------------------------------------------- building the document

  /** Every name reads as an index below the number of names. */
  ghost predicate ArrayLike(names: set<string>) {
    forall k :: k in names ==> Atoi(k).Some? && 0 <= Atoi(k).value < |names|
  }

  /** No two names read as the same number. */
  ghost predicate Unambiguous(names: set<string>) {
    forall k, k' :: k in names && k' in names && Atoi(k) == Atoi(k') ==> k == k'
  }

  /** Some name reads as i. */
  ghost predicate Filled(names: set<string>, i: int) {
    exists k :: k in names && Atoi(k) == Some(i)
  }

  ghost function NameOf(names: set<string>, i: int): (k: string)
    requires Filled(names, i)
    ensures k in names && Atoi(k) == Some(i)
  {
    var k :| k in names && Atoi(k) == Some(i);
    k
  }

  /** The document of a node, or None where the original dereferences an array slot that no
      child has filled. Children that all read as indices make an array, others an object. A
      node with children hides its own value. */
  ghost function Unflatten(t: Tree): Option<Json> {
    var names := t.children.Keys;
    if names == {} then Some(t.value)
    else if !(forall k :: k in names ==> Unflatten(t.children[k]).Some?) then None
    else if !ArrayLike(names) then Some(Obj(map k | k in names :: Unflatten(t.children[k]).value))
    else if forall i :: 0 <= i < |names| ==> Filled(names, i) then
      Some(Arr(seq(|names|, i requires 0 <= i < |names| => Unflatten(t.children[NameOf(names, i)]).value)))
    else None
  }

  /** The root is always an object. */
  ghost function Build(t: Tree): Option<Json> {
    var names := t.children.Keys;
    if !(forall k :: k in names ==> Unflatten(t.children[k]).Some?) then None
    else Some(Obj(map k | k in names :: Unflatten(t.children[k]).value))
  }

  /** The set of numbers the names read as. */
  ghost function Indices(names: set<string>): set<int>
    requires ArrayLike(names)
  {
    set k | k in names :: Atoi(k).value
  }

  ghost function Upto(n: nat): (s: set<int>)
    ensures |s| == n && forall i :: i in s <==> 0 <= i < n
  {
    if n == 0 then {} else Upto(n - 1) + {n - 1}
  }

  lemma SubsetIsNotLarger(a: set<int>, b: set<int>)
    requires a <= b
    ensures |a| <= |b|
  {
    assert b == a + (b - a);
  }

  lemma {:induction false} ImageSize(names: set<string>, bound: nat)
    requires forall k :: k in names ==> Atoi(k).Some? && 0 <= Atoi(k).value < bound
    ensures |(set k | k in names :: Atoi(k).value)| <= |names|
    ensures Unambiguous(names) <==> |(set k | k in names :: Atoi(k).value)| == |names|
  {
    var image := set k | k in names :: Atoi(k).value;
    if names != {} {
      var x :| x in names;
      var rest := names - {x};
      var restImage := set k | k in rest :: Atoi(k).value;
      ImageSize(rest, bound);
      assert image == restImage + {Atoi(x).value};
      if Atoi(x).value in restImage {
        var y :| y in rest && Atoi(y).value == Atoi(x).value;
        assert !Unambiguous(names);
        assert image == restImage;
      } else {
        assert Unambiguous(names) <==> Unambiguous(rest);
      }
    }
  }

  /** n names that read as indices below n fill all n slots exactly when no two of them read
      as the same number. */
  lemma ArrayIsTotalExactly(names: set<string>)
    requires ArrayLike(names)
    ensures (forall i :: 0 <= i < |names| ==> Filled(names, i)) <==> Unambiguous(names)
  {
    var image, all := Indices(names), Upto(|names|);
    ImageSize(names, |names|);
    if Unambiguous(names) {
      SubsetOfSameSize(image, all);
      forall i | 0 <= i < |names|
        ensures Filled(names, i)
      {
        assert i in image;
      }
    }
    if forall i :: 0 <= i < |names| ==> Filled(names, i) {
      assert all <= image by {
        forall i | i in all
          ensures i in image
        {
          assert Filled(names, i);
        }
      }
      SubsetIsNotLarger(all, image);
    }
  }

  /** Canonical names are unambiguous, so arrays of canonically named children are total. */
  lemma CanonicalNamesFillArrays(names: set<string>)
    requires ArrayLike(names) && forall k :: k in names ==> Canonical(k)
    ensures Unambiguous(names) && forall i :: 0 <= i < |names| ==> Filled(names, i)
  {
    ArrayIsTotalExactly(names);
  }

  // ---------------------------------------------------------------- round trip

  /** No empty object or array, and no object whose n keys all read as indices below n. */
  ghost predicate Faithful(v: Json) {
    match v
    case Arr(s) => s != [] && forall i :: 0 <= i < |s| ==> Faithful(s[i])
    case Obj(m) => m != map[] && !ArrayLike(m.Keys) && forall k :: k in m ==> Faithful(m[k])
    case _ => true
  }

  /** The tree of a JSON value that was inserted at a fresh node. */
  function Grown(v: Json): Tree { InsertValue(EMPTY, v) }

  lemma GrownObject(m: map<string, Json>)
    ensures Grown(Obj(m)).children == map k | k in m :: Grown(m[k])
    ensures Grown(Obj(m)).value == Null
  {
    forall k | k in m
      ensures k in Grown(Obj(m)).children && Grown(Obj(m)).children[k] == Grown(m[k])
    {
      CompositeChild(EMPTY, Obj(m), k);
    }
  }

  /** The names of n array items. */
  ghost function IndexNames(n: nat): set<string> {
    if n == 0 then {} else IndexNames(n - 1) + {Itoa(n - 1)}
  }

  lemma {:induction false} IndexNamesAre(n: nat, k: string)
    ensures k in IndexNames(n) <==> exists i: nat :: i < n && Itoa(i) == k
  {
    if n > 0 {
      IndexNamesAre(n - 1, k);
      var last: nat := n - 1;
      assert Itoa(last) == k ==> exists i: nat :: i < n && Itoa(i) == k;
    }
  }

  lemma {:induction false} IndexNamesCount(n: nat)
    ensures |IndexNames(n)| == n
  {
    if n > 0 {
      IndexNamesCount(n - 1);
      IndexNamesAre(n - 1, Itoa(n - 1));
      if i: nat :| i < n - 1 && Itoa(i) == Itoa(n - 1) {
        AtoiOfItoa(i);
        AtoiOfItoa(n - 1);
      }
    }
  }

  lemma GrownItem(s: seq<Json>, i: nat)
    requires i < |s|
    ensures Itoa(i) in Grown(Arr(s)).children && Grown(Arr(s)).children[Itoa(i)] == Grown(s[i])
  {
    AtoiOfItoa(i);
    CompositeChild(EMPTY, Arr(s), Itoa(i));
  }

  lemma GrownArrayNames(s: seq<Json>)
    ensures Grown(Arr(s)).children.Keys == IndexNames(|s|)
  {
    forall k
      ensures k in Grown(Arr(s)).children <==> k in IndexNames(|s|)
    {
      CompositeChild(EMPTY, Arr(s), k);
      IndexNamesAre(|s|, k);
      if i: nat :| i < |s| && Itoa(i) == k {
        GrownItem(s, i);
      }
    }
  }

  /** The names of an array's items fill all slots, each its own. */
  lemma IndexNamesFill(n: nat)
    ensures ArrayLike(IndexNames(n))
    ensures forall i: nat :: i < n ==> Filled(IndexNames(n), i) && NameOf(IndexNames(n), i) == Itoa(i)
  {
    var names := IndexNames(n);
    IndexNamesCount(n);
    forall k | k in names
      ensures Atoi(k).Some? && 0 <= Atoi(k).value < n && k == Itoa(Atoi(k).value)
    {
      IndexNamesAre(n, k);
      var i: nat :| i < n && Itoa(i) == k;
      AtoiOfItoa(i);
    }
    forall i: nat | i < n
      ensures Filled(names, i) && NameOf(names, i) == Itoa(i)
    {
      IndexNamesAre(n, Itoa(i));
      AtoiOfItoa(i);
    }
  }

  /** Round trip: inserting a JSON value at a fresh node and flattening back returns the
      value exactly when the value is faithful. */
  lemma {:induction false} RoundTripExactly(v: Json)
    ensures Unflatten(Grown(v)) == Some(v) <==> Faithful(v)
    decreases v
  {
    match v
    case Obj(m) =>
      ObjectRoundTrip(m) by {
        forall k | k in m
          ensures Unflatten(Grown(m[k])) == Some(m[k]) <==> Faithful(m[k])
        {
          RoundTripExactly(m[k]);
        }
      }
    case Arr(s) =>
      ArrayRoundTrip(s) by {
        forall i | 0 <= i < |s|
          ensures Unflatten(Grown(s[i])) == Some(s[i]) <==> Faithful(s[i])
        {
          RoundTripExactly(s[i]);
        }
      }
    case _ =>
  }

  lemma ObjectRoundTrip(m: map<string, Json>)
    requires forall k :: k in m ==> (Unflatten(Grown(m[k])) == Some(m[k]) <==> Faithful(m[k]))
    ensures Unflatten(Grown(Obj(m))) == Some(Obj(m)) <==> Faithful(Obj(m))
  {
    hide Atoi, Itoa, Grown;
    GrownObject(m);
    var t := Grown(Obj(m));
    assert t.children.Keys == m.Keys;
    if Faithful(Obj(m)) {
      assert forall k :: k in m ==> Unflatten(t.children[k]) == Some(m[k]);
      assert Unflatten(t).value.fields == m;
    }
    if Unflatten(t) == Some(Obj(m)) {
      forall k | k in m
        ensures Faithful(m[k])
      {
        assert Unflatten(t).value.fields[k] == Unflatten(t.children[k]).value;
      }
    }
  }

  /** The documents of the children named by the first n indices. */
  ghost predicate ItemsBuild(t: Tree, n: nat) {
    forall i: nat :: i < n ==> Itoa(i) in t.children && Unflatten(t.children[Itoa(i)]).Some?
  }

  /** The document of a node whose children are the items of an array. */
  lemma ItemsMakeArray(t: Tree, n: nat)
    requires n > 0 && t.children.Keys == IndexNames(n)
    ensures Unflatten(t).Some? <==> ItemsBuild(t, n)
    ensures ItemsBuild(t, n) ==>
              Unflatten(t).value == Arr(seq(n, i requires 0 <= i < n => Unflatten(t.children[Itoa(i)]).value))
  {
    hide Itoa, Atoi;
    var names := IndexNames(n);
    IndexNamesFill(n);
    IndexNamesCount(n);
    forall i: nat | i < n
      ensures Itoa(i) in names
    {
      IndexNamesAre(n, Itoa(i));
    }
    if forall k :: k in names ==> Unflatten(t.children[k]).Some? {
      assert ItemsBuild(t, n);
      assert Unflatten(t).value.items == seq(n, i requires 0 <= i < n => Unflatten(t.children[Itoa(i)]).value);
    } else {
      var k :| k in names && Unflatten(t.children[k]).None?;
      IndexNamesAre(n, k);
      var i: nat :| i < n && Itoa(i) == k;
      assert !ItemsBuild(t, n);
    }
  }

  lemma ArrayRoundTrip(s: seq<Json>)
    requires forall i :: 0 <= i < |s| ==> (Unflatten(Grown(s[i])) == Some(s[i]) <==> Faithful(s[i]))
    ensures Unflatten(Grown(Arr(s))) == Some(Arr(s)) <==> Faithful(Arr(s))
  {
    hide Itoa, Atoi;
    var t := Grown(Arr(s));
    if s == [] {
      assert InsertItems(EMPTY, Arr(s), 0) == EMPTY;
    } else {
      GrownArrayNames(s);
      ItemsMakeArray(t, |s|);
      forall i: nat | i < |s|
        ensures Itoa(i) in t.children && t.children[Itoa(i)] == Grown(s[i])
      {
        GrownItem(s, i);
      }
      if Unflatten(t) == Some(Arr(s)) {
        assert forall i :: 0 <= i < |s| ==> Unflatten(t).value.items[i] == Unflatten(Grown(s[i])).value;
      }
      if Faithful(Arr(s)) {
        assert Unflatten(t).value.items == s;
      }
    }
  }

  // ---------------------------------------------------------------- lookup

  /** The node at a path. */
  function NodeAt(t: Tree, path: seq<string>): Option<Tree>
    decreases path
  {
    if path == [] then Some(t)
    else if path[0] in t.children then NodeAt(t.children[path[0]], path[1..])
    else None
  }

  /** The value at a path of a document; array items are named by numerals. */
  function Get(v: Json, path: seq<string>): Option<Json>
    decreases path
  {
    if path == [] then Some(v)
    else match v
      case Obj(m) => if path[0] in m then Get(m[path[0]], path[1..]) else None
      case Arr(s) =>
        var i := Atoi(path[0]);
        if i.Some? && 0 <= i.value < |s| then Get(s[i.value], path[1..]) else None
      case _ => None
  }

  /** A value inserted at a fresh path stands there alone. */
  lemma {:induction false} FreshPlaceIsGrown(t: Tree, path: seq<string>, v: Json)
    requires At(t, path) == None
    ensures NodeAt(Place(t, path, v), path) == Some(Grown(v))
    decreases path
  {
    if path[1..] != [] || path[0] in t.children {
      AtChild(t, path);
      FreshPlaceIsGrown(Child(t, path[0]), path[1..], v);
    }
  }

  /** Inserting a faithful value at a fresh path and flattening that node returns it. */
  lemma InsertedValueRoundTrips(t: Tree, s: Setting)
    requires At(t, s.path) == None
    ensures var node := NodeAt(Insert(t, s.path, s.value), s.path);
            node.Some? && (Unflatten(node.value) == Some(s.value) <==> Faithful(s.value))
  {
    FreshPlaceIsGrown(t, s.path, s.value);
    RoundTripExactly(s.value);
  }

  /** All names in the tree are canonical. */
  ghost predicate CanonicalTree(t: Tree) {
    forall k :: k in t.children ==> Canonical(k) && CanonicalTree(t.children[k])
  }

  /** With canonical names the document always builds, and looking up the path of a node
      finds the document of that node. */
  lemma {:induction false} LookupFindsNode(t: Tree, path: seq<string>)
    requires CanonicalTree(t) && NodeAt(t, path).Some?
    ensures Unflatten(t).Some? && Unflatten(NodeAt(t, path).value).Some?
    ensures Get(Unflatten(t).value, path) == Unflatten(NodeAt(t, path).value)
    decreases path
  {
    CanonicalTreeBuilds(t);
    if path != [] {
      var k, names := path[0], t.children.Keys;
      LookupFindsNode(t.children[k], path[1..]);
      if ArrayLike(names) {
        CanonicalNamesFillArrays(names);
        var i := Atoi(k).value;
        assert NameOf(names, i) == k;
      }
    }
  }

  lemma {:induction false} CanonicalTreeBuilds(t: Tree)
    requires CanonicalTree(t)
    ensures Unflatten(t).Some?
    decreases t
  {
    forall k | k in t.children
      ensures Unflatten(t.children[k]).Some?
    {
      CanonicalTreeBuilds(t.children[k]);
    }
    if ArrayLike(t.children.Keys) {
      CanonicalNamesFillArrays(t.children.Keys);
    }
  }

  /** Wherever the children make an array, no two names read as the same number. */
  ghost predicate UnambiguousTree(t: Tree) {
    && (ArrayLike(t.children.Keys) ==> Unambiguous(t.children.Keys))
    && forall k :: k in t.children ==> UnambiguousTree(t.children[k])
  }

  /** A node has a document exactly when no array below it has ambiguous names. */
  lemma {:induction false} UnflattensExactly(t: Tree)
    ensures Unflatten(t).Some? <==> UnambiguousTree(t)
    decreases t
  {
    hide Atoi, Unambiguous, Filled;
    forall k | k in t.children
      ensures Unflatten(t.children[k]).Some? <==> UnambiguousTree(t.children[k])
    {
      UnflattensExactly(t.children[k]);
    }
    if ArrayLike(t.children.Keys) {
      ArrayIsTotalExactly(t.children.Keys);
    }
  }

  /** A tree has a document exactly when no array below its root has ambiguous names; the
      root, always an object, may have any. */
  lemma BuildsExactly(t: Tree)
    ensures Build(t).Some? <==> forall k :: k in t.children ==> UnambiguousTree(t.children[k])
  {
    forall k | k in t.children
      ensures Unflatten(t.children[k]).Some? <==> UnambiguousTree(t.children[k])
    {
      UnflattensExactly(t.children[k]);
    }
  }

  /** Two scalars at names that both read as zero, below one node: no document is built. */
  lemma CollidingNamesDoNotBuild(node: string, name: string, other: string, v: Json, w: Json)
    requires IsScalar(v) && IsScalar(w)
    requires name != other && Atoi(name) == Some(0) && Atoi(other) == Some(0)
    ensures Build(InsertAll(EMPTY, [Setting([node, name], v), Setting([node, other], w)])) == None
  {
    hide Atoi;
    var s, u := Setting([node, name], v), Setting([node, other], w);
    InsertTwo(EMPTY, s, u);
    var t := InsertAll(EMPTY, [s, u]);
    assert s.path[1..] == [name] && u.path[1..] == [other] && [name][1..] == [] && [other][1..] == [];
    var first := Insert(EMPTY, s.path, v);
    assert node in first.children && first.children[node] == Place(EMPTY, [name], v);
    assert Place(EMPTY, [name], v) == EMPTY.(children := map[name := Place(EMPTY, [], v)]);
    assert first.children[node].children.Keys == {name};
    assert Child(first, node) == first.children[node];
    var a := t.children[node];
    assert a == Place(first.children[node], [other], w);
    assert a.children.Keys == {name, other};
    assert ArrayLike(a.children.Keys) && !Unambiguous(a.children.Keys);
    BuildsExactly(t);
  }

  ghost predicate CanonicalPath(path: seq<string>) {
    forall i :: 0 <= i < |path| ==> Canonical(path[i])
  }

  lemma {:induction false} CanonicalByPaths(t: Tree)
    requires forall p :: At(t, p).Some? ==> CanonicalPath(p)
    ensures CanonicalTree(t)
    decreases t
  {
    forall k | k in t.children
      ensures Canonical(k) && CanonicalTree(t.children[k])
    {
      AtSingle(t, k);
      assert CanonicalPath([k]) && [k][0] == k;
      forall p | At(t.children[k], p).Some?
        ensures CanonicalPath(p)
      {
        assert ([k] + p)[1..] == p;
        assert CanonicalPath([k] + p);
        assert forall i :: 0 <= i < |p| ==> p[i] == ([k] + p)[i + 1];
      }
      CanonicalByPaths(t.children[k]);
    }
  }

  lemma {:induction false} NodeHoldsValue(t: Tree, path: seq<string>)
    ensures NodeAt(t, path).Some? <==> At(t, path).Some?
    ensures NodeAt(t, path).Some? ==> At(t, path) == Some(NodeAt(t, path).value.value)
    ensures NodeAt(t, path).Some? ==> forall k :: k in NodeAt(t, path).value.children <==> At(t, path + [k]).Some?
    decreases path
  {
    if path == [] {
      forall k
        ensures k in t.children <==> At(t, path + [k]).Some?
      {
        assert path + [k] == [k];
        AtSingle(t, k);
      }
    } else if path[0] in t.children {
      NodeHoldsValue(t.children[path[0]], path[1..]);
      assert forall k :: (path + [k])[1..] == path[1..] + [k];
    }
  }

  /** Lookup: when the settings' leaves do not clash and the names they use are canonical, the
      document builds, and looking up the path of a scalar finds that scalar, unless some
      setting reaches below the path. */
  lemma BuiltDocumentHasScalar(settings: seq<Setting>, s: Setting, path: seq<string>)
    requires AllCompatible(settings) && s in settings && LeafOf(s, path).Some?
    requires forall x, p :: x in settings && TouchedBy(x, p) ==> CanonicalPath(p)
    requires forall k :: !SomeTouch(settings, path + [k])
    ensures var root := Build(InsertAll(EMPTY, settings));
            root.Some? && Get(root.value, path) == LeafOf(s, path)
  {
    hide InsertAll, CanonicalPath, Compatible, TouchedBy, SomeLeaf, Atoi, Itoa;
    var t := InsertAll(EMPTY, settings);
    BuiltTreeIsCanonical(settings);
    AtInsertAll(EMPTY, settings, path);
    NodeHoldsValue(t, path);
    forall k
      ensures At(t, path + [k]) == None
    {
      if At(t, path + [k]).Some? {
        BuiltNodeIsTouched(settings, path + [k]);
      }
    }
    forall k | k in t.children
      ensures Unflatten(t.children[k]).Some?
    {
      CanonicalTreeBuilds(t.children[k]);
    }
    LookupFindsNode(t.children[path[0]], path[1..]);
  }

  lemma BuiltTreeIsCanonical(settings: seq<Setting>)
    requires AllCompatible(settings)
    requires forall x, p :: x in settings && TouchedBy(x, p) ==> CanonicalPath(p)
    ensures CanonicalTree(InsertAll(EMPTY, settings))
  {
    hide InsertAll, Compatible, At;
    var t := InsertAll(EMPTY, settings);
    forall p | At(t, p).Some?
      ensures CanonicalPath(p)
    {
      BuiltNodeIsTouched(settings, p);
    }
    CanonicalByPaths(t);
  }

  lemma BuiltNodeIsTouched(settings: seq<Setting>, path: seq<string>)
    requires AllCompatible(settings) && At(InsertAll(EMPTY, settings), path).Some?
    ensures path == [] || SomeTouch(settings, path)
  {
    AtInsertAll(EMPTY, settings, path);
    AtEmpty(path);
    if SomeLeaf(settings, path) {
      var x :| x in settings && LeafOf(x, path).Some?;
      LeafIsTouched(x.value, path[|x.path|..]);
      assert TouchedBy(x, path);
    }
  }
}
