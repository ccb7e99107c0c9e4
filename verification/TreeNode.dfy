/** The mutable tree of internal/loader/tree.go: nodes with a map of children, updated in
    place. Every node carries the value, of type Tree, that it represents. */
module TreeNode {
  import opened Wrappers
  import opened Decimal
  import opened T = Tree

  class Node {
    var children: map<string, Node>
    var value: Json
    ghost var tree: Tree
    ghost var Repr: set<Node>

    ghost predicate Valid()
      reads this, Repr
      ensures Valid() ==> this in Repr
      decreases Repr
    {
      && this in Repr
      && tree.value == value
      && tree.children.Keys == children.Keys
      && (forall k :: k in children ==> Owns(k))
      && (forall k, k' :: k in children && k' in children && k != k' ==> children[k].Repr !! children[k'].Repr)
    }

    /** The child k is a valid node of its own that represents its part of the tree. */
    ghost predicate Owns(k: string)
      requires this in Repr && k in children && k in tree.children
      reads this, Repr
      decreases Repr, 0
    {
      && children[k] in Repr && children[k].Repr <= Repr && this !in children[k].Repr
      && children[k].Valid() && children[k].tree == tree.children[k]
    }

    constructor ()
      ensures Valid() && fresh(Repr) && tree == EMPTY
    {
      children := map[];
      value := Null;
      tree := EMPTY;
      Repr := {this};
    }

    /** The child of that name, created if it is missing. */
    method GetOrCreateChild(part: string) returns (child: Node)
      requires Valid()
      modifies this
      ensures Valid() && fresh(Repr - old(Repr))
      ensures part in children && children[part] == child
      ensures tree == old(tree).(children := old(tree).children[part := Child(old(tree), part)])
    {
      if part in children {
        child := children[part];
        assert Owns(part);
        assert tree.children == tree.children[part := tree.children[part]];
      } else {
        child := new Node();
        children := children[part := child];
        tree := tree.(children := tree.children[part := EMPTY]);
        Repr := Repr + child.Repr;
        assert forall k :: k in old(children) ==> old(Owns(k));
        assert forall k :: k in children ==> Owns(k);
      }
    }

    /** Takes over what its child has become. */
    ghost method AbsorbChild(part: string)
      requires this in Repr && tree.value == value && tree.children.Keys == children.Keys && part in children
      requires children[part].Valid() && this !in children[part].Repr
      requires forall k :: k in children && k != part ==> Owns(k) && children[k].Repr !! children[part].Repr
      requires forall k, k' :: k in children && k' in children && k != part && k' != part && k != k' ==>
                 children[k].Repr !! children[k'].Repr
      modifies this`tree, this`Repr
      ensures Valid() && Repr == old(Repr) + children[part].Repr
      ensures tree == old(tree).(children := old(tree).children[part := children[part].tree])
    {
      tree := tree.(children := tree.children[part := children[part].tree]);
      Repr := Repr + children[part].Repr;
      assert forall k :: k in children && k != part ==> old(Owns(k));
      assert forall k :: k in children ==> Owns(k);
    }

    /** Goes on with the rest of the path at an existing child, or sets the value there. */
    method InsertBelow(part: string, rest: seq<string>, v: Json)
      requires Valid() && part in children
      modifies Repr
      ensures Valid() && fresh(Repr - old(Repr))
      ensures tree == old(tree).(children := old(tree).children[part := Place(old(tree).children[part], rest, v)])
      decreases v, |rest| + 1, 1
    {
      var child := children[part];
      assert Owns(part);
      assert forall k :: k in children ==> Owns(k);
      ghost var nodes := child.Repr;
      if |rest| == 0 {
        child.SetValue(v);
      } else {
        child.Insert(rest, v);
      }
      assert forall k :: k in children && k != part ==> children[k].Repr !! nodes;
      AbsorbChild(part);
    }

    /** Walks down the path one name at a time, creating missing nodes, and sets the value at
        its end; the empty path does nothing. */
    method Insert(parts: seq<string>, v: Json)
      requires Valid()
      modifies Repr
      ensures Valid() && fresh(Repr - old(Repr))
      ensures tree == T.Insert(old(tree), parts, v)
      decreases v, |parts| + 1, 0
    {
      if parts == [] {
        return;
      }
      var child := GetOrCreateChild(parts[0]);
      InsertBelow(parts[0], parts[1..], v);
      assert tree.children == old(tree).children[parts[0] := Place(Child(old(tree), parts[0]), parts[1..], v)];
    }

    method SetValue(v: Json)
      requires Valid()
      modifies Repr
      ensures Valid() && fresh(Repr - old(Repr))
      ensures tree == InsertValue(old(tree), v)
      decreases v, 0, 1
    {
      match v {
        case Obj(m) => SetFields(m, v);
        case Arr(s) => SetItems(s, v);
        case _ =>
          value := v;
          tree := tree.(value := v);
          assert forall k :: k in children ==> old(Owns(k));
          assert forall k :: k in children ==> Owns(k);
      }
    }

    /** Visits the fields in any order. */
    method SetFields(m: map<string, Json>, ghost v: Json)
      requires Valid() && v == Obj(m)
      modifies Repr
      ensures Valid() && fresh(Repr - old(Repr))
      ensures tree == InsertValue(old(tree), v)
      decreases v, 0, 0
    {
      hide T.Insert, InsertValue, WithFields;
      var left := m.Keys;
      ghost var before := tree;
      ghost var done: set<string> := {};
      WithAllFields(before, m);
      while left != {}
        invariant left <= m.Keys && done == m.Keys - left
        invariant Valid() && fresh(Repr - old(Repr))
        invariant tree == WithFields(before, m, done)
        decreases left
      {
        var k :| k in left;
        assert m[k] < v;
        OneMoreField(before, m, done, k);
        Insert([k], m[k]);
        left, done := left - {k}, done + {k};
      }
      assert done == m.Keys;
    }

    /** Visits the items in order. */
    method SetItems(s: seq<Json>, ghost v: Json)
      requires Valid() && v == Arr(s)
      modifies Repr
      ensures Valid() && fresh(Repr - old(Repr))
      ensures tree == InsertValue(old(tree), v)
      decreases v, 0, 0
    {
      ghost var before := tree;
      var i := 0;
      while i < |s|
        invariant 0 <= i <= |s|
        invariant Valid() && fresh(Repr - old(Repr))
        invariant tree == InsertItems(before, v, i)
      {
        assert s[i] < v;
        PlaceOne(tree, Itoa(i), s[i]);
        Insert([Itoa(i)], s[i]);
        i := i + 1;
      }
    }
  }

  // ---------------------------------------------------------------- building the document

  /** Fills a slot per child while every name reads as an index below the number of names. */
  method FillSlots(node: Node) returns (isArray: bool, slots: array<Node?>)
    requires node.Valid()
    ensures fresh(slots) && slots.Length == |node.children|
    ensures isArray <==> ArrayLike(node.children.Keys)
    ensures isArray ==> forall k :: k in node.children ==> slots[Atoi(k).value] != null
    ensures isArray ==> forall i :: 0 <= i < slots.Length && slots[i] != null ==>
              exists k :: k in node.children && Atoi(k) == Some(i) && slots[i] == node.children[k]
  {
    hide Atoi, Node.Valid, Node.Owns;
    ghost var names := node.children.Keys;
    slots := new Node?[|node.children|](_ => null);
    var left := node.children.Keys;
    isArray := true;
    while left != {}
      invariant left <= names
      invariant forall k :: k in names - left ==> Atoi(k).Some? && 0 <= Atoi(k).value < slots.Length
      invariant forall k :: k in names - left ==> slots[Atoi(k).value] != null
      invariant forall i :: 0 <= i < slots.Length && slots[i] != null ==>
                  exists k :: k in names - left && Atoi(k) == Some(i) && slots[i] == node.children[k]
      decreases left
    {
      var k :| k in left;
      var idx := Atoi(k);
      if idx.None? || idx.value >= slots.Length || idx.value < 0 {
        isArray := false;
        return;
      }
      slots[idx.value] := node.children[k];
      left := left - {k};
    }
  }

  /** The document of a node; None where a slot that no child filled is dereferenced. */
  method UnflattenNode(node: Node) returns (document: Option<Json>)
    requires node.Valid()
    ensures document == Unflatten(node.tree)
    decreases node.Repr
  {
    if |node.children| == 0 {
      assert node.tree.children.Keys == {};
      return Some(node.value);
    }
    var isArray, slots := FillSlots(node);
    if isArray {
      document := UnflattenSlots(node, slots);
    } else {
      var fields := UnflattenChildren(node);
      assert fields.Some? ==> fields.value == Unflatten(node.tree).value.fields;
      document := if fields.Some? then Some(Obj(fields.value)) else None;
    }
  }

  /** The slots as an array, in order. */
  method UnflattenSlots(node: Node, slots: array<Node?>) returns (document: Option<Json>)
    requires node.Valid() && ArrayLike(node.children.Keys) && slots.Length == |node.children| > 0
    requires forall k :: k in node.children ==> slots[Atoi(k).value] != null
    requires forall i :: 0 <= i < slots.Length && slots[i] != null ==>
               exists k :: k in node.children && Atoi(k) == Some(i) && slots[i] == node.children[k]
    ensures document == Unflatten(node.tree)
    decreases node.Repr, 0
  {
    hide Atoi, Unflatten, ArrayLike;
    ghost var names := node.children.Keys;
    ArrayIsTotalExactly(names);
    var items: seq<Json> := [];
    var i := 0;
    while i < slots.Length
      invariant 0 <= i <= slots.Length && |items| == i
      invariant forall j :: 0 <= j < i ==> Filled(names, j)
      invariant Unambiguous(names) ==>
                  forall j :: 0 <= j < i ==> Unflatten(node.tree.children[NameOf(names, j)]) == Some(items[j])
    {
      if slots[i] == null {
        assert !Filled(names, i);
        EmptySlotFails(node.tree, i);
        return None;
      }
      ghost var k :| k in node.children && Atoi(k) == Some(i) && slots[i] == node.children[k];
      assert node.Owns(k);
      var child := UnflattenNode(slots[i]);
      if child.None? {
        FailingChildFails(node.tree, k);
        return None;
      }
      assert Unambiguous(names) ==> NameOf(names, i) == k;
      items := items + [child.value];
      i := i + 1;
    }
    ItemsAreDocument(node.tree, items);
    document := Some(Arr(items));
  }

  lemma EmptySlotFails(t: Tree, i: nat)
    requires ArrayLike(t.children.Keys) && i < |t.children.Keys| && !Filled(t.children.Keys, i)
    ensures Unflatten(t) == None
  {
  }

  lemma FailingChildFails(t: Tree, k: string)
    requires k in t.children && Unflatten(t.children[k]) == None
    ensures Unflatten(t) == None
  {
    assert k in t.children.Keys;
  }

  lemma ItemsAreDocument(t: Tree, items: seq<Json>)
    requires ArrayLike(t.children.Keys) && |items| == |t.children.Keys| > 0
    requires forall j :: 0 <= j < |items| ==> Filled(t.children.Keys, j)
    requires Unambiguous(t.children.Keys) ==>
               forall j :: 0 <= j < |items| ==> Unflatten(t.children[NameOf(t.children.Keys, j)]) == Some(items[j])
    ensures Unflatten(t) == Some(Arr(items))
  {
    hide Atoi;
    var names := t.children.Keys;
    ArrayIsTotalExactly(names);
    forall k | k in names
      ensures Unflatten(t.children[k]).Some?
    {
      assert NameOf(names, Atoi(k).value) == k;
    }
    assert Unflatten(t).value.items == items;
  }

  /** The documents of all children by name. */
  method UnflattenChildren(node: Node) returns (fields: Option<map<string, Json>>)
    requires node.Valid()
    ensures fields.Some? <==> forall k :: k in node.tree.children.Keys ==> Unflatten(node.tree.children[k]).Some?
    ensures fields.Some? ==>
              fields.value == map k | k in node.tree.children.Keys :: Unflatten(node.tree.children[k]).value
    decreases node.Repr, 0
  {
    hide Unflatten;
    var result: map<string, Json> := map[];
    var left := node.children.Keys;
    while left != {}
      invariant left <= node.children.Keys
      invariant result.Keys == node.children.Keys - left
      invariant forall k :: k in result ==> Unflatten(node.tree.children[k]) == Some(result[k])
      decreases left
    {
      var k :| k in left;
      assert node.Owns(k);
      var child := UnflattenNode(node.children[k]);
      if child.None? {
        return None;
      }
      result := result[k := child.value];
      left := left - {k};
    }
    fields := Some(result);
  }

  /** The root's document is always an object. */
  method BuildRoot(root: Node) returns (document: Option<Json>)
    requires root.Valid()
    ensures document == Build(root.tree)
  {
    var fields := UnflattenChildren(root);
    assert fields.Some? ==> fields.value == Build(root.tree).value.fields;
    document := if fields.Some? then Some(Obj(fields.value)) else None;
  }

  /** t with some of the fields of an object placed. */
  ghost function WithFields(t: Tree, m: map<string, Json>, done: set<string>): Tree
    requires done <= m.Keys
  {
    t.(children := map k | k in t.children.Keys + done ::
                     if k in done then InsertValue(Child(t, k), m[k]) else t.children[k])
  }

  lemma WithAllFields(t: Tree, m: map<string, Json>)
    ensures WithFields(t, m, {}) == t && WithFields(t, m, m.Keys) == InsertValue(t, Obj(m))
  {
  }

  lemma PlaceOne(t: Tree, k: string, v: Json)
    ensures T.Insert(t, [k], v) == t.(children := t.children[k := InsertValue(Child(t, k), v)])
  {
    assert [k][0] == k && [k][1..] == [];
    assert Place(Child(t, k), [], v) == InsertValue(Child(t, k), v);
  }

  lemma OneMoreField(t: Tree, m: map<string, Json>, done: set<string>, k: string)
    requires done <= m.Keys && k in m && k !in done
    ensures T.Insert(WithFields(t, m, done), [k], m[k]) == WithFields(t, m, done + {k})
  {
    PlaceOne(WithFields(t, m, done), k, m[k]);
    assert Child(WithFields(t, m, done), k) == Child(t, k);
  }
}
