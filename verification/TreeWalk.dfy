/** Walking a subtree, and what replacing the file of a node does to the tree (madbfs/src/filesystem.cpp). */
module TreeWalk {
  import opened Bytes
  import opened Paths
  import opened Tree
  import opened TreeRename
  import opened Handles

  /** Everything at or below some of these nodes. */
  ghost function Under(nodes: Nodes, route: Route,
                       tops: set<Id>): set<Id> { set x | x in nodes && exists t :: t in tops && Below(route, t, x) }

  ghost predicate Unrelated(route: Route,
                            tops: set<Id>) { forall s, t | s in tops && t in tops && Below(route, s, t) :: s == t }

  function Kids(nodes: Nodes, d: Id): set<Id> { set name | name in Children(nodes, d) :: Children(nodes, d)[name] }

  lemma {:induction false} KidOf(nodes: Nodes, route: Route, d: Id, c: Id)
    requires Routed(nodes, route) && d in nodes && c in Kids(nodes, d)
    ensures c in nodes && c != ROOT && nodes[c].parent == Some(d) && route[c] == route[d] + [nodes[c].name]
              && Below(route, d, c) && c != d
  {
    assert Adopts(nodes, d);
    assert Hangs(nodes, route, c) && Hangs(nodes, route, ROOT);
  }

  /** The child on the way from a node to one below it. */
  lemma {:induction false} KidToward(nodes: Nodes, route: Route, x: Id, y: Id) returns (c: Id)
    requires Routed(nodes, route) && x in nodes && y in nodes && Below(route, x, y) && x != y
    ensures c in Kids(nodes, x) && Below(route, c, y)
    decreases |route[y]|
  {
    assert Hangs(nodes, route, y) && Hangs(nodes, route, ROOT);
    if y == ROOT {
      RouteUnique(nodes, route, x, ROOT);
      c := x;
    } else {
      BelowParent(nodes, route, x, y);
      var q := nodes[y].parent.value;
      if q == x {
        assert Children(nodes, q)[nodes[y].name] == y;
        c := y;
      } else {
        c := KidToward(nodes, route, x, q);
        assert route[c] <= route[q] <= route[y];
      }
    }
  }

  lemma {:induction false} BelowTransitive(route: Route, a: Id, b: Id, c: Id)
    ensures Below(route, a, b) && Below(route, b, c) ==> Below(route, a, c)
  {
  }

  /**
   * The state of a walk: what is still to be visited is everything under the pending nodes, and none
   * of it has been.
   */
  ghost predicate Walking(nodes: Nodes, route: Route, tops: set<Id>, pending: set<Id>, seen: set<Id>) {
    && pending <= nodes.Keys && Unrelated(route, pending)
    && seen !! Under(nodes, route, pending)
    && seen + Under(nodes, route, pending) == Under(nodes, route, tops)
  }

  lemma {:induction false} UnderStep(nodes: Nodes, route: Route, pending: set<Id>, x: Id)
    requires Routed(nodes, route) && pending <= nodes.Keys && x in pending && Unrelated(route, pending)
    ensures Kids(nodes, x) <= nodes.Keys
    ensures Under(nodes, route, pending) == {x} + Under(nodes, route, pending - {x} + Kids(nodes, x))
    ensures x !in Under(nodes, route, pending - {x} + Kids(nodes, x))
  {
    var rest := pending - {x} + Kids(nodes, x);
    forall c | c in Kids(nodes, x) ensures c in nodes && Below(route, x, c) && !Below(route, c, x) {
      KidOf(nodes, route, x, c);
    }
    forall y ensures y in Under(nodes, route, pending) <==> y == x || y in Under(nodes, route, rest) {
      if y in Under(nodes, route, pending) && y != x {
        var t :| t in pending && Below(route, t, y);
        if t == x {
          var c := KidToward(nodes, route, x, y);
          assert c in rest && Below(route, c, y);
        } else {
          assert t in rest;
        }
      }
      if y in Under(nodes, route, rest) {
        var t :| t in rest && Below(route, t, y);
        if t !in pending {
          BelowTransitive(route, x, t, y);
        }
      }
      if y == x && y in nodes { assert Below(route, x, y); }
    }
  }

  lemma {:induction false} UnrelatedStep(nodes: Nodes, route: Route, pending: set<Id>, x: Id)
    requires Routed(nodes, route) && pending <= nodes.Keys && x in pending && Unrelated(route, pending)
    ensures Unrelated(route, pending - {x} + Kids(nodes, x))
  {
    var rest := pending - {x} + Kids(nodes, x);
    forall s, t | s in rest && t in rest && Below(route, s, t) ensures s == t {
      if s in Kids(nodes, x) { KidOf(nodes, route, x, s); }
      if t in Kids(nodes, x) {
        KidOf(nodes, route, x, t);
        BelowParent(nodes, route, s, t);
      }
      BelowTransitive(route, x, s, t);
    }
  }

  function Ids(order: seq<Id>): set<Id> { set x | x in order }

  /** `walk` from some nodes: what it comes to, in an order that does not matter. */
  method Walk(nodes: Nodes, ghost route: Route, tops: set<Id>) returns (order: seq<Id>)
    requires Routed(nodes, route) && tops <= nodes.Keys && Unrelated(route, tops)
    ensures Ids(order) == Under(nodes, route, tops)
  {
    var pending := tops;
    order := [];
    while pending != {}
      invariant Walking(nodes, route, tops, pending, Ids(order))
      decreases nodes.Keys - Ids(order)
    {
      var x :| x in pending;
      UnderStep(nodes, route, pending, x);
      UnrelatedStep(nodes, route, pending, x);
      assert Ids(order + [x]) == Ids(order) + {x};
      order := order + [x];
      pending := pending - {x} + Kids(nodes, x);
    }
  }

  lemma {:induction false} ErasedMore(hs: seq<Handle>, a: set<Id>, b: set<Id>)
    ensures Erased(Erased(hs, a), b) == Erased(hs, a + b)
  {
  }

  /** Frees the handles of all these nodes. */
  method EraseAll(store: FileHandleStore, order: seq<Id>)
    modifies store
    ensures store.handles == Erased(old(store.handles), Ids(order))
  {
    var i: nat := 0;
    assert Erased(store.handles, Ids(order[..0])) == store.handles;
    while i < |order|
      invariant i <= |order|
      invariant store.handles == Erased(old(store.handles), Ids(order[..i]))
    {
      var erased := store.Erase(order[i]);
      ErasedMore(old(store.handles), Ids(order[..i]), {order[i]});
      assert order[..i + 1] == order[..i] + [order[i]];
      assert Ids(order[..i + 1]) == Ids(order[..i]) + {order[i]};
      i := i + 1;
    }
    assert order[..i] == order;
  }

  // Replacing the file of a node.

  /** The descendants of a node. */
  ghost function Strict(nodes: Nodes, route: Route, id: Id): set<Id> { Under(nodes, route, Kids(nodes, id)) }

  lemma {:induction false} StrictIsSub(nodes: Nodes, route: Route, id: Id)
    requires Routed(nodes, route) && id in nodes
    ensures Kids(nodes, id) <= nodes.Keys && Unrelated(route, Kids(nodes, id))
    ensures Strict(nodes, route, id) == Sub(nodes, route, id) - {id}
  {
    UnderStep(nodes, route, {id}, id);
    UnrelatedStep(nodes, route, {id}, id);
    assert {id} - {id} + Kids(nodes, id) == Kids(nodes, id);
    assert Under(nodes, route, {id}) == Sub(nodes, route, id);
  }

  /** `mutate`: the node becomes a leaf, and what it held is destroyed. */
  function Mutated(nodes: Nodes, gone: set<Id>, id: Id, mode: FileType, file: File): Nodes
    requires id in nodes
  {
    Remove(nodes, gone)[id := nodes[id].(mode := mode, file := file)]
  }

  lemma {:induction false} StrictClosed(nodes: Nodes, route: Route, id: Id)
    requires Routed(nodes, route) && id in nodes
    ensures Closed(nodes, Strict(nodes, route, id)) && id !in Strict(nodes, route, id)
    ensures forall x, m | x in nodes && x !in Strict(nodes, route, id) && x != id && m in Children(nodes, x) ::
              Children(nodes, x)[m] !in Strict(nodes, route, id)
  {
    StrictIsSub(nodes, route, id);
    assert Hangs(nodes, route, ROOT) && Hangs(nodes, route, id);
    if ROOT in Sub(nodes, route, id) { RouteUnique(nodes, route, id, ROOT); }
    forall x | x in nodes && x !in Strict(nodes, route, id) && nodes[x].parent.Some?
        ensures nodes[x].parent.value !in Strict(nodes, route, id) {
      if x != ROOT { BelowParent(nodes, route, id, x); }
    }
    forall x, m | x in nodes && x !in Strict(nodes, route, id) && x != id && m in Children(nodes, x)
      ensures Children(nodes, x)[m] !in Strict(nodes, route, id)
    {
      var c := Children(nodes, x)[m];
      assert c in Kids(nodes, x);
      KidOf(nodes, route, x, c);
      BelowParent(nodes, route, id, c);
    }
  }

  lemma {:induction false} Unpruned(nodes: Nodes, gone: set<Id>, x: Id)
    requires x in nodes && x !in gone && forall m | m in Children(nodes, x) :: Children(nodes, x)[m] !in gone
    ensures Drop(nodes, gone)[x] == nodes[x]
  {
    assert Children(Drop(nodes, gone), x) == Children(nodes, x);
  }

  lemma {:induction false} MutateRouted(nodes: Nodes, route: Route, id: Id, mode: FileType, file: File)
    requires Routed(nodes, route) && id in nodes && id != ROOT && Leaf(file)
    ensures Routed(Mutated(nodes, Strict(nodes, route, id), id, mode, file), Restrict(route, Strict(nodes, route, id)))
  {
    var gone := Strict(nodes, route, id);
    StrictClosed(nodes, route, id);
    StrictIsSub(nodes, route, id);
    DropRouted(nodes, route, gone);
    var dropped := Drop(nodes, gone);
    forall m | m in Children(nodes, id) ensures Children(nodes, id)[m] in gone {
      var c := Children(nodes, id)[m];
      assert c in Kids(nodes, id);
      KidOf(nodes, route, id, c);
    }
    assert Leaf(dropped[id].file);
    LeafRouted(dropped, Restrict(route, gone), id, mode, file);
    assert Mutated(nodes, gone, id, mode, file) == dropped[id := dropped[id].(mode := mode, file := file)] by {
      forall x | x in dropped && x != id ensures dropped[x] == nodes[x] {
        Unpruned(nodes, gone, x);
      }
    }
  }
}
