/** `Node::build_path` (madbfs/src/node.cpp): a node's path, written backwards from the node up to the root. */
module NodePath {
  import opened Bytes
  import opened Paths
  import opened PathBuffers
  import opened Tree

  lemma {:induction false} RevRev(s: string)
    ensures Reversed(Reversed(s)) == s
  {
  }

  lemma {:induction false} RevAppend(a: string, b: string)
    ensures Reversed(a + b) == Reversed(b) + Reversed(a)
  {
  }

  /** A name goes to the front of the text of the names after it. */
  lemma {:induction false} JoinFront(n: string, ns: seq<string>)
    ensures Join([n] + ns) == "/" + n + Join(ns)
  {
    if ns == [] {
      assert [n] + ns == [n];
      assert Join([n]) == Join([n][..0]) + "/" + n;
      assert [n][..0] == [];
    } else {
      var front, last := ns[..|ns| - 1], ns[|ns| - 1];
      JoinFront(n, front);
      assert ([n] + ns)[..|[n] + ns| - 1] == [n] + front;
      assert Join([n] + ns) == "/" + n + Join(front) + "/" + last;
    }
  }

  lemma {:induction false} RoutePlain(nodes: Nodes, route: Route, id: Id)
    requires Routed(nodes, route) && id in nodes
    ensures AllPlain(route[id])
    decreases |route[id]|
  {
    assert Hangs(nodes, route, id);
    if id != ROOT {
      RoutePlain(nodes, route, nodes[id].parent.value);
    }
  }

  /** What has been written when the loop has come up to a node: its name and those below it on the way. */
  ghost predicate Written(nodes: Nodes, route: Route, id: Id, at: Id, text: string) {
    && at in nodes && Below(route, at, id)
    && (if at == ROOT then text == (if id == ROOT then "/" else "/" + Join(route[id])) else
        |route[at]| > 0 && "/" + text == Join(route[id][|route[at]| - 1..]))
  }

  lemma {:induction false} WrittenFirst(nodes: Nodes, route: Route, id: Id)
    requires Routed(nodes, route) && id in nodes
    ensures Written(nodes, route, id, id, nodes[id].name)
  {
    assert Hangs(nodes, route, id);
    if id != ROOT {
      var n := nodes[id].name;
      assert route[id][|route[id]| - 1..] == [n] + [];
      JoinFront(n, []);
      assert Join([]) == "";
    }
  }

  /** The parent of a node on the way to id is on it too, one name earlier. */
  lemma {:induction false} ParentOnWay(nodes: Nodes, route: Route, id: Id, at: Id)
    requires Routed(nodes, route) && id in nodes && at in nodes && Below(route, at, id) && at != ROOT
    ensures nodes[at].parent.Some? && nodes[at].parent.value in nodes
    ensures var p := nodes[at].parent.value;
            |route[at]| == |route[p]| + 1 && Below(route, p, id) && id != ROOT
    ensures var p := nodes[at].parent.value;
            if p == ROOT then route[p] == [] else route[p] != [] && route[id][|route[p]| - 1] == nodes[p].name
  {
    assert Hangs(nodes, route, at);
    var p := nodes[at].parent.value;
    assert Hangs(nodes, route, p) && Hangs(nodes, route, ROOT);
    var k := |route[p]|;
    assert route[id][..k + 1] == route[at];
    assert route[id][..k] == route[at][..k] == route[p];
  }

  lemma {:induction false} WrittenNext(nodes: Nodes, route: Route, id: Id, at: Id, text: string)
    requires Routed(nodes, route) && id in nodes && Written(nodes, route, id, at, text) && at != ROOT
    ensures nodes[at].parent.Some? && nodes[at].parent.value in nodes && |route[nodes[at].parent.value]| < |route[at]|
    ensures Written(nodes, route, id, nodes[at].parent.value, nodes[nodes[at].parent.value].name + "/" + text)
  {
    ParentOnWay(nodes, route, id, at);
    var p := nodes[at].parent.value;
    var names, k := route[id], |route[p]|;
    if p == ROOT {
      assert Hangs(nodes, route, ROOT);
      assert names[0..] == names;
    } else {
      JoinNext(names, k, nodes[p].name, text);
    }
  }

  lemma {:induction false} JoinNext(names: seq<string>, k: nat, n: string, text: string)
    requires 0 < k <= |names| && names[k - 1] == n && "/" + text == Join(names[k..])
    ensures "/" + (n + "/" + text) == Join(names[k - 1..])
  {
    assert names[k - 1..] == [n] + names[k..];
    JoinFront(n, names[k..]);
    assert "/" + (n + "/" + text) == "/" + n + ("/" + text);
  }

  lemma {:induction false} RevNext(text: string, name: string)
    ensures Reversed(text + ("/" + Reversed(name))) == name + "/" + Reversed(text)
  {
    RevAppend(text, "/" + Reversed(name));
    RevAppend("/", Reversed(name));
    RevRev(name);
    assert Reversed("/") == "/";
  }

  /** The loop up to the root. */
  method WriteBackwards(nodes: Nodes, ghost route: Route, id: Id) returns (text: string)
    requires Routed(nodes, route) && id in nodes
    ensures Reversed(text) == if id == ROOT then "/" else "/" + Join(route[id])
  {
    text := Reversed(nodes[id].name);
    RevRev(nodes[id].name);
    WrittenFirst(nodes, route, id);
    var at := id;
    assert Hangs(nodes, route, ROOT) && Hangs(nodes, route, at);
    while nodes[at].parent.Some?
      invariant Written(nodes, route, id, at, Reversed(text))
      invariant at != ROOT <==> nodes[at].parent.Some?
      decreases |route[at]|
    {
      WrittenNext(nodes, route, id, at, Reversed(text));
      at := nodes[at].parent.value;
      assert Hangs(nodes, route, at);
      RevNext(text, nodes[at].name);
      text := text + ("/" + Reversed(nodes[at].name));
    }
  }

  /** The path of a node has the names of its route, so traversing it leads back to the node. */
  method BuildPath(nodes: Nodes, ghost route: Route, id: Id) returns (p: Path)
    requires Routed(nodes, route) && id in nodes
    ensures Valid(p) && NamesOf(p) == route[id]
    ensures Lookup(nodes, NamesOf(p)) == Some(id)
  {
    var text := WriteBackwards(nodes, route, id);
    RoutePlain(nodes, route, id);
    RootRoute(nodes, route, id);
    ghost var names := route[id];
    text := DropLast(text, id == ROOT, names);
    p := Finish(Reversed(text), names);
    RouteFound(nodes, route, id);
  }

  lemma {:induction false} RootRoute(nodes: Nodes, route: Route, id: Id)
    requires Routed(nodes, route) && id in nodes
    ensures id == ROOT <==> route[id] == []
  {
    assert Hangs(nodes, route, id) && Hangs(nodes, route, ROOT);
  }

  /**
   * The root's name is a slash, and so is what follows it: the last of the two goes, unless there is
   * nothing but the root.
   */
  method DropLast(text: string, ghost root: bool, ghost names: seq<string>) returns (r: string)
    requires Reversed(text) == if root then "/" else "/" + Join(names)
    requires AllPlain(names) && (root <==> names == [])
    ensures Reversed(r) == if root then "/" else Join(names)
  {
    TokensJoin(names);
    RevRev(text);
    r := text;
    if |r| > 2 && r[|r| - 1] == '/' && r[|r| - 2] == '/' {
      r := r[..|r| - 1];
      assert Reversed(r) == Reversed(text)[1..];
    }
  }

  method Finish(s: string, ghost names: seq<string>) returns (p: Path)
    requires s == if names == [] then "/" else Join(names)
    requires AllPlain(names)
    ensures Valid(p) && NamesOf(p) == names
  {
    TokensJoin(names);
    CreateValid(s);
    assert Tokens("/") == Tokens("/"[1..]) == [];
    var buf := new PathBuf();
    var ok := buf.Create(s);
    p := Path(buf.str, buf.comps);
  }
}
