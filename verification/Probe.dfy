/** The browse projection of a probe (src/mtconnect/model.rs): a device's element tree walked in
    pre-order into a list of nodes that name their parents by id. */
module Probe {
  import opened Common

  const ROOT_NODE_ID := "mtc:/component/"
  const COMPONENT_PREFIX := "mtc:/component/"
  const ITEM_PREFIX := "mtc:/item/"

  /** A `DataItem` element; without an id, or without a known category, it is no item at all. */
  datatype DataItem = DataItem(id: Option<string>, hasCategory: bool)

  /** A component element, or the device's. */
  datatype Elem = Elem(tag: string, name: Option<string>, items: seq<DataItem>, children: seq<Elem>)

  datatype Node = Node(id: string, parent: Option<string>)

  type Tree = seq<Node>

  function Segment(e: Elem): string {
    match e.name
    case None => e.tag
    case Some(name) => e.tag + "[" + name + "]"
  }

  function ChildPath(path: string, e: Elem): string {
    if path == "" then Segment(e) else path + "/" + Segment(e)
  }

  /** The nodes of the first `n` data items of an element. */
  function ItemNodes(e: Elem, n: nat, id: string): Tree
    requires n <= |e.items|
  {
    if n == 0 then []
    else
      var item := e.items[n - 1];
      ItemNodes(e, n - 1, id)
      + if item.id.Some? && item.hasCategory then [Node(ITEM_PREFIX + item.id.value, Some(id))] else []
  }

  /** The nodes of the first `n` child components of an element, each followed by its own subtree. */
  function ComponentNodes(e: Elem, n: nat, path: string, id: string): Tree
    requires n <= |e.children|
    decreases e, n
  {
    if n == 0 then []
    else
      ComponentNodes(e, n - 1, path, id) + ComponentTree(e.children[n - 1], path, id)
  }

  function ComponentId(path: string): string {
    COMPONENT_PREFIX + path
  }

  /** A child component and everything beneath it. */
  function ComponentTree(child: Elem, path: string, id: string): Tree
    decreases child, |child.children| + 2
  {
    var childPath := ChildPath(path, child);
    [Node(ComponentId(childPath), Some(id))] + Subtree(child, childPath, ComponentId(childPath))
  }

  /** Everything beneath an element: its own data items, then each child component in document order. */
  function Subtree(e: Elem, path: string, id: string): Tree
    decreases e, |e.children| + 1
  {
    ItemNodes(e, |e.items|, id) + ComponentNodes(e, |e.children|, path, id)
  }

  function TreeOf(device: Elem): Tree {
    [Node(ROOT_NODE_ID, None)] + Subtree(device, "", ROOT_NODE_ID)
  }

  /** The walk itself: the list that grows gets an element's own items, then each child with its subtree. */
  method Walk(e: Elem, path: string, id: string, tree: Tree) returns (grown: Tree)
    ensures grown == tree + Subtree(e, path, id)
    decreases e, 1
  {
    var items := WalkItems(e, id);
    var components := WalkComponents(e, path, id);
    grown := tree + items + components;
    Together(tree, items, components);
  }

  method WalkComponents(e: Elem, path: string, id: string) returns (components: Tree)
    ensures components == ComponentNodes(e, |e.children|, path, id)
    decreases e, 0
  {
    components := [];
    for n := 0 to |e.children|
      invariant components == ComponentNodes(e, n, path, id)
    {
      var child := e.children[n];
      assert child in e.children;
      var subtree := WalkComponent(child, path, id);
      OneComponentMore(e, n, path, id);
      components := components + subtree;
    }
  }

  /** A child component's own node, then its walk. */
  method WalkComponent(child: Elem, path: string, id: string) returns (nodes: Tree)
    ensures nodes == ComponentTree(child, path, id)
    decreases child, 2
  {
    var childPath := ChildPath(path, child);
    var childId := ComponentId(childPath);
    nodes := Walk(child, childPath, childId, [Node(childId, Some(id))]);
  }

  lemma OneComponentMore(e: Elem, n: nat, path: string, id: string)
    requires n < |e.children|
    ensures ComponentNodes(e, n + 1, path, id)
            == ComponentNodes(e, n, path, id) + ComponentTree(e.children[n], path, id)
  {
  }

  lemma Together(a: Tree, b: Tree, c: Tree)
    ensures a + b + c == a + (b + c)
  {
  }

  method WalkItems(e: Elem, id: string) returns (nodes: Tree)
    ensures nodes == ItemNodes(e, |e.items|, id)
  {
    nodes := [];
    for n := 0 to |e.items|
      invariant nodes == ItemNodes(e, n, id)
    {
      var item := e.items[n];
      if item.id.Some? && item.hasCategory {
        nodes := nodes + [Node(ITEM_PREFIX + item.id.value, Some(id))];
      }
    }
  }

  method Project(device: Elem) returns (tree: Tree)
    ensures tree == TreeOf(device)
  {
    tree := Walk(device, "", ROOT_NODE_ID, [Node(ROOT_NODE_ID, None)]);
  }

  // ---------------------------------------------------------------------------------------------
  // Parents come first
  // ---------------------------------------------------------------------------------------------

  predicate HasId(tree: Tree, id: string) {
    exists i :: 0 <= i < |tree| && tree[i].id == id
  }

  predicate IsComponentId(id: string) {
    COMPONENT_PREFIX <= id
  }

  /** A node names a component that stands before it as its parent. */
  ghost predicate Hangs(node: Node, before: Tree) {
    node.parent.Some? && HasId(before, node.parent.value) && IsComponentId(node.parent.value)
  }

  /** Every node of `more` names a component that stands before it in `before + more`. */
  ghost predicate ParentsFirst(before: Tree, more: Tree) {
    forall k :: 0 <= k < |more| ==> Hangs(more[k], before + more[..k])
  }

  lemma ParentsFirstConcat(before: Tree, a: Tree, b: Tree)
    requires ParentsFirst(before, a) && ParentsFirst(before + a, b)
    ensures ParentsFirst(before, a + b)
  {
    var more := a + b;
    forall k | 0 <= k < |more| ensures Hangs(more[k], before + more[..k]) {
      if k < |a| {
        assert more[..k] == a[..k];
        assert more[k] == a[k] && Hangs(a[k], before + a[..k]);
      } else {
        assert before + more[..k] == before + a + b[..k - |a|];
        assert more[k] == b[k - |a|] && Hangs(b[k - |a|], before + a + b[..k - |a|]);
      }
    }
  }

  lemma StillHasId(tree: Tree, more: Tree, id: string)
    requires HasId(tree, id)
    ensures HasId(tree + more, id)
  {
    var i :| 0 <= i < |tree| && tree[i].id == id;
    assert (tree + more)[i].id == id;
  }

  lemma OneMore(before: Tree, node: Node)
    requires Hangs(node, before)
    ensures ParentsFirst(before, [node]) && HasId(before + [node], node.id)
  {
    assert before + [node][..0] == before;
    assert (before + [node])[|before|].id == node.id;
  }

  lemma {:induction false} ItemsFollow(e: Elem, n: nat, id: string, before: Tree)
    requires n <= |e.items| && HasId(before, id) && IsComponentId(id)
    ensures ParentsFirst(before, ItemNodes(e, n, id))
  {
    if n > 0 {
      var item, earlier := e.items[n - 1], ItemNodes(e, n - 1, id);
      ItemsFollow(e, n - 1, id, before);
      if item.id.Some? && item.hasCategory {
        StillHasId(before, earlier, id);
        OneMore(before + earlier, Node(ITEM_PREFIX + item.id.value, Some(id)));
        ParentsFirstConcat(before, earlier, [Node(ITEM_PREFIX + item.id.value, Some(id))]);
      } else {
        assert ItemNodes(e, n, id) == earlier;
      }
    }
  }

  lemma {:induction false} ComponentsFollow(e: Elem, n: nat, path: string, id: string, before: Tree)
    requires n <= |e.children| && HasId(before, id) && IsComponentId(id)
    ensures ParentsFirst(before, ComponentNodes(e, n, path, id))
    decreases e, n
  {
    if n > 0 {
      var earlier := ComponentNodes(e, n - 1, path, id);
      assert e.children[n - 1] in e.children;
      ComponentsFollow(e, n - 1, path, id, before);
      StillHasId(before, earlier, id);
      ComponentFollows(e.children[n - 1], path, id, before + earlier);
      ParentsFirstConcat(before, earlier, ComponentTree(e.children[n - 1], path, id));
    }
  }

  lemma {:induction false} ComponentFollows(child: Elem, path: string, id: string, before: Tree)
    requires HasId(before, id) && IsComponentId(id)
    ensures ParentsFirst(before, ComponentTree(child, path, id))
    decreases child, |child.children| + 2
  {
    var childPath := ChildPath(path, child);
    var node := Node(ComponentId(childPath), Some(id));
    OneMore(before, node);
    SubtreeFollows(child, childPath, node.id, before + [node]);
    ParentsFirstConcat(before, [node], Subtree(child, childPath, node.id));
  }

  lemma {:induction false} SubtreeFollows(e: Elem, path: string, id: string, before: Tree)
    requires HasId(before, id) && IsComponentId(id)
    ensures ParentsFirst(before, Subtree(e, path, id))
    decreases e, |e.children| + 1
  {
    var items := ItemNodes(e, |e.items|, id);
    ItemsFollow(e, |e.items|, id, before);
    StillHasId(before, items, id);
    ComponentsFollow(e, |e.children|, path, id, before + items);
    ParentsFirstConcat(before, items, ComponentNodes(e, |e.children|, path, id));
  }

  /** In the projection of any device, the root stands first and alone without a parent, and every other
      node names a component that stands before it. */
  lemma ParentsComeFirst(device: Elem, k: nat)
    requires k < |TreeOf(device)|
    ensures var tree := TreeOf(device);
            && (tree[k].parent.None? <==> k == 0)
            && (k > 0 ==> Hangs(tree[k], tree[..k]))
  {
    var root, more := [Node(ROOT_NODE_ID, None)], Subtree(device, "", ROOT_NODE_ID);
    assert root[0].id == ROOT_NODE_ID;
    SubtreeFollows(device, "", ROOT_NODE_ID, root);
    if k > 0 {
      assert TreeOf(device)[k] == more[k - 1];
      assert TreeOf(device)[..k] == root + more[..k - 1];
      assert Hangs(more[k - 1], root + more[..k - 1]);
    }
  }
}
