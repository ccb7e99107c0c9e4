/** Which settings make a tree that has a document, told from their paths and values alone. */
module TreeNames {
  import opened T = Tree

  // ---------------------------------------------------------------- the nodes of a tree

  /** After all insertions there is a node where there was one, and where a setting touches. */
  lemma {:induction false} NodesAfterAll(t: Tree, settings: seq<Setting>, path: seq<string>)
    ensures At(InsertAll(t, settings), path).Some? <==> At(t, path).Some? || SomeTouch(settings, path)
    decreases settings
  {
    hide Insert, At, TouchedBy;
    if settings != [] {
      var first, rest := settings[0], settings[1..];
      NodesAfterOne(t, first, path);
      NodesAfterAll(Insert(t, first.path, first.value), rest, path);
      assert settings == [first] + rest;
      assert SomeTouch(settings, path) <==> TouchedBy(first, path) || SomeTouch(rest, path);
    }
  }

  lemma NodesAfterOne(t: Tree, s: Setting, path: seq<string>)
    ensures At(Insert(t, s.path, s.value), path).Some? <==> At(t, path).Some? || TouchedBy(s, path)
  {
    hide Insert, LeafAt, Touches;
    AtInsert(t, s, path);
    if LeafOf(s, path).Some? {
      LeafIsTouched(s.value, path[|s.path|..]);
    }
  }

  /** The names are those of the children of the node at the path. */
  ghost predicate ChildNames(t: Tree, path: seq<string>, names: set<string>) {
    forall n :: n in names <==> At(t, path + [n]).Some?
  }

  /** Names that make an array are not read as the same number. */
  ghost predicate NoCollision(names: set<string>) {
    ArrayLike(names) ==> Unambiguous(names)
  }

  lemma ChildNamesBelow(t: Tree, path: seq<string>, names: set<string>)
    requires path != []
    ensures path[0] in t.children ==>
              (ChildNames(t, path, names) <==> ChildNames(t.children[path[0]], path[1..], names))
    ensures path[0] !in t.children && ChildNames(t, path, names) ==> names == {}
  {
    assert forall n :: (path + [n])[1..] == path[1..] + [n] && (path + [n])[0] == path[0];
  }

  lemma ChildNamesOfRoot(t: Tree, names: set<string>)
    ensures ChildNames(t, [], names) <==> names == t.children.Keys
  {
    forall n
      ensures At(t, [] + [n]).Some? <==> n in t.children
    {
      assert [] + [n] == [n];
      AtSingle(t, n);
    }
  }

  lemma {:induction false} UnambiguousByPaths(t: Tree)
    ensures UnambiguousTree(t) <==> forall path, names :: ChildNames(t, path, names) ==> NoCollision(names)
    decreases t
  {
    hide At, ChildNames, NoCollision;
    ChildNamesOfRoot(t, t.children.Keys);
    assert NoCollision(t.children.Keys) <==> (ArrayLike(t.children.Keys) ==> Unambiguous(t.children.Keys)) by {
      NoCollisionIs(t.children.Keys);
    }
    if UnambiguousTree(t) {
      forall path, names | ChildNames(t, path, names)
        ensures NoCollision(names)
      {
        if path == [] {
          ChildNamesOfRoot(t, names);
        } else {
          ChildNamesBelow(t, path, names);
          if path[0] in t.children {
            UnambiguousByPaths(t.children[path[0]]);
          } else {
            NoCollisionIs({});
          }
        }
      }
    }
    if forall path, names :: ChildNames(t, path, names) ==> NoCollision(names) {
      forall k | k in t.children
        ensures UnambiguousTree(t.children[k])
      {
        forall path, names | ChildNames(t.children[k], path, names)
          ensures NoCollision(names)
        {
          assert ([k] + path)[0] == k && ([k] + path)[1..] == path;
          ChildNamesBelow(t, [k] + path, names);
        }
        UnambiguousByPaths(t.children[k]);
      }
    }
  }

  lemma NoCollisionIs(names: set<string>)
    ensures NoCollision(names) <==> (ArrayLike(names) ==> Unambiguous(names))
    ensures NoCollision({})
  {
  }

  // ---------------------------------------------------------------- which settings build

  /** The names with which settings go on below a path. */
  ghost predicate NamesBelow(settings: seq<Setting>, path: seq<string>, names: set<string>) {
    forall n :: n in names <==> SomeTouch(settings, path + [n])
  }

  /** The tree of the settings has a document exactly when nowhere below the root they go on with
      names that make an array and of which two read as the same number. */
  lemma BuildsByPaths(settings: seq<Setting>)
    ensures Build(InsertAll(EMPTY, settings)).Some?
            <==> forall path, names :: path != [] && NamesBelow(settings, path, names) ==> NoCollision(names)
  {
    hide At, InsertAll, ChildNames, NamesBelow, NoCollision, Unambiguous;
    var t := InsertAll(EMPTY, settings);
    BuildsExactly(t);
    if Build(t).Some? {
      forall path, names | path != [] && NamesBelow(settings, path, names)
        ensures NoCollision(names)
      {
        SameNames(settings, path, names);
        ChildNamesBelow(t, path, names);
        if path[0] in t.children {
          UnambiguousByPaths(t.children[path[0]]);
        } else {
          NoCollisionIs({});
        }
      }
    }
    if forall path, names :: path != [] && NamesBelow(settings, path, names) ==> NoCollision(names) {
      forall k | k in t.children
        ensures UnambiguousTree(t.children[k])
      {
        forall path, names | ChildNames(t.children[k], path, names)
          ensures NoCollision(names)
        {
          assert ([k] + path)[0] == k && ([k] + path)[1..] == path;
          ChildNamesBelow(t, [k] + path, names);
          SameNames(settings, [k] + path, names);
        }
        UnambiguousByPaths(t.children[k]);
      }
    }
  }

  lemma SameNames(settings: seq<Setting>, path: seq<string>, names: set<string>)
    ensures ChildNames(InsertAll(EMPTY, settings), path, names) <==> NamesBelow(settings, path, names)
  {
    hide InsertAll, SomeTouch, At;
    forall n
      ensures At(InsertAll(EMPTY, settings), path + [n]).Some? <==> SomeTouch(settings, path + [n])
    {
      NodesAfterAll(EMPTY, settings, path + [n]);
      AtEmpty(path + [n]);
    }
  }
}
