/** The walk of src/mtconnect/model.rs is a pre-order: a node hangs beneath the nearest earlier node with the id it
    names, that node's subtree is still open there, and a subtree is one contiguous stretch of the tree. */
module Nesting {
  import opened Common
  import opened Probe
  import opened Browse

  /** From a node on, every node hangs beneath one whose subtree the node before it belongs to. */
  ghost predicate PreOrder(tree: Tree, from: nat) {
    forall k :: from <= k < |tree| ==> Continues(tree, k)
  }

  ghost predicate Continues(tree: Tree, k: nat)
    requires k < |tree|
  {
    k > 0 && Near(tree, k).Some? && Beneath(tree, k - 1, Near(tree, k).value)
  }

  /** Directly beneath the device no component is nameless; XML has no nameless elements. */
  predicate Named(e: Elem, path: string) {
    path == "" ==> forall c :: c in e.children ==> Segment(c) != ""
  }

  // ---------------------------------------------------------------------------------------------
  // Appending changes nothing before
  // ---------------------------------------------------------------------------------------------

  lemma {:induction false} NearestStays(tree: Tree, more: Tree, n: nat, id: string)
    requires n <= |tree|
    ensures NearestBefore(tree + more, n, id) == NearestBefore(tree, n, id)
  {
    if n > 0 {
      NearestStays(tree, more, n - 1, id);
    }
  }

  lemma NearStays(tree: Tree, more: Tree, i: nat)
    requires i < |tree|
    ensures Near(tree + more, i) == Near(tree, i)
  {
    if tree[i].parent.Some? {
      NearestStays(tree, more, i, tree[i].parent.value);
    }
  }

  lemma {:induction false} BeneathStays(tree: Tree, more: Tree, j: nat, i: nat)
    requires j < |tree|
    ensures Beneath(tree + more, j, i) <==> Beneath(tree, j, i)
    decreases j
  {
    NearStays(tree, more, j);
    if Near(tree, j).Some? {
      BeneathStays(tree, more, Near(tree, j).value, i);
    }
  }

  lemma ContinuesStays(tree: Tree, more: Tree, k: nat)
    requires k < |tree|
    ensures Continues(tree + more, k) <==> Continues(tree, k)
  {
    NearStays(tree, more, k);
    if k > 0 && Near(tree, k).Some? {
      BeneathStays(tree, more, k - 1, Near(tree, k).value);
    }
  }

  /** Ids no longer than a given one lead where they led. */
  ghost predicate LeadsAsBefore(before: Tree, after: Tree, length: nat) {
    forall id :: IsComponentId(id) && |id| <= length ==>
      NearestBefore(after, |after|, id) == NearestBefore(before, |before|, id)
  }

  /** What the walk of a subtree beneath node `at` leaves: nothing before it changed, it goes on in pre-order, and the
      subtree of `at` is still open. */
  ghost predicate Grown(before: Tree, after: Tree, at: nat, length: nat) {
    && before <= after && |before| > 0
    && PreOrder(after, |before|)
    && Beneath(after, |after| - 1, at)
    && LeadsAsBefore(before, after, length)
  }

  lemma GrownTwice(a: Tree, b: Tree, c: Tree, at: nat, length: nat)
    requires Grown(a, b, at, length) && Grown(b, c, at, length)
    ensures Grown(a, c, at, length)
  {
    forall k | |a| <= k < |c| ensures Continues(c, k) {
      if k < |b| {
        assert b + c[|b|..] == c;
        ContinuesStays(b, c[|b|..], k);
      }
    }
    forall id | IsComponentId(id) && |id| <= length
      ensures NearestBefore(c, |c|, id) == NearestBefore(a, |a|, id)
    {
      assert NearestBefore(b, |b|, id) == NearestBefore(a, |a|, id);
    }
  }

  lemma GrownBoth(before: Tree, a: Tree, b: Tree, at: nat, length: nat)
    requires Grown(before, before + a, at, length) && Grown(before + a, before + a + b, at, length)
    ensures Grown(before, before + (a + b), at, length)
  {
    assert before + (a + b) == before + a + b;
    GrownTwice(before, before + a, before + a + b, at, length);
  }

  lemma NotGrown(before: Tree, at: nat, length: nat)
    requires |before| > 0 && Beneath(before, |before| - 1, at)
    ensures Grown(before, before + [], at, length)
  {
    assert before + [] == before;
  }

  /** A node appended beneath `at` hangs there. */
  lemma HangsBeneath(before: Tree, node: Node, at: nat)
    requires at < |before| && Beneath(before, |before| - 1, at) && node.parent == Some(before[at].id)
    requires NearestBefore(before, |before|, before[at].id) == Some(at)
    ensures Near(before + [node], |before|) == Some(at)
    ensures PreOrder(before + [node], |before|) && Beneath(before + [node], |before|, at)
  {
    var after := before + [node];
    NearestStays(before, [node], |before|, before[at].id);
    BeneathStays(before, [node], |before| - 1, at);
    assert Near(after, |before|) == Some(at) && Continues(after, |before|);
    assert Beneath(after, at, at);
  }

  /** Ids no longer than its own lead where they led. */
  lemma LeadsOn(before: Tree, node: Node, length: nat)
    requires IsComponentId(node.id) ==> |node.id| > length
    ensures LeadsAsBefore(before, before + [node], length)
  {
    var after := before + [node];
    forall id | IsComponentId(id) && |id| <= length
      ensures NearestBefore(after, |after|, id) == NearestBefore(before, |before|, id)
    {
      NearestStays(before, [node], |before|, id);
      assert after[|before|].id != id;
    }
  }

  /** One node more beneath `at`. */
  lemma OneNodeMore(before: Tree, node: Node, at: nat, length: nat)
    requires at < |before| && Beneath(before, |before| - 1, at) && node.parent == Some(before[at].id)
    requires NearestBefore(before, |before|, before[at].id) == Some(at)
    requires IsComponentId(node.id) ==> |node.id| > length
    ensures Grown(before, before + [node], at, length)
    ensures Near(before + [node], |before|) == Some(at) && Beneath(before + [node], |before|, at)
  {
    HangsBeneath(before, node, at);
    LeadsOn(before, node, length);
  }

  // ---------------------------------------------------------------------------------------------
  // The walk
  // ---------------------------------------------------------------------------------------------

  /** The subtree of `at` is open, and its id leads to it. */
  ghost predicate Open(before: Tree, at: nat, id: string) {
    && at < |before| && before[at].id == id && IsComponentId(id)
    && Beneath(before, |before| - 1, at)
    && NearestBefore(before, |before|, id) == Some(at)
  }

  lemma StillOpen(before: Tree, after: Tree, at: nat, id: string)
    requires Open(before, at, id) && Grown(before, after, at, |id|)
    ensures Open(after, at, id)
  {
  }

  lemma ItemsAreNoComponents(id: string)
    requires ITEM_PREFIX <= id
    ensures !IsComponentId(id)
  {
    assert ITEM_PREFIX[5] == id[5];
  }

  lemma {:induction false} ItemsGrow(e: Elem, n: nat, id: string, before: Tree, at: nat)
    requires n <= |e.items| && Open(before, at, id)
    ensures Grown(before, before + ItemNodes(e, n, id), at, |id|)
  {
    if n == 0 {
      NotGrown(before, at, |id|);
    } else {
      var item, earlier := e.items[n - 1], before + ItemNodes(e, n - 1, id);
      ItemsGrow(e, n - 1, id, before, at);
      StillOpen(before, earlier, at, id);
      if item.id.Some? && item.hasCategory {
        var node := Node(ITEM_PREFIX + item.id.value, Some(id));
        ItemsAreNoComponents(node.id);
        OneNodeMore(earlier, node, at, |id|);
        GrownBoth(before, ItemNodes(e, n - 1, id), [node], at, |id|);
      } else {
        assert ItemNodes(e, n, id) == ItemNodes(e, n - 1, id) + [];
        assert before + ItemNodes(e, n, id) == earlier;
      }
    }
  }

  lemma {:induction false} ComponentsGrow(e: Elem, n: nat, path: string, before: Tree, at: nat)
    requires n <= |e.children| && Open(before, at, ComponentId(path)) && Named(e, path)
    ensures Grown(before, before + ComponentNodes(e, n, path, ComponentId(path)), at, |ComponentId(path)|)
    decreases e, n
  {
    var id := ComponentId(path);
    if n == 0 {
      NotGrown(before, at, |id|);
    } else {
      ComponentsGrow(e, n - 1, path, before, at);
      var child, front := e.children[n - 1], ComponentNodes(e, n - 1, path, id);
      assert child in e.children;
      StillOpen(before, before + front, at, id);
      ComponentGrows(child, path, before + front, at);
      GrownBoth(before, front, ComponentTree(child, path, id), at, |id|);
    }
  }

  /** A child's path is longer than its parent's. */
  lemma ChildPathsAreLonger(path: string, child: Elem)
    requires path != "" || Segment(child) != ""
    ensures |ComponentId(ChildPath(path, child))| > |ComponentId(path)| && ChildPath(path, child) != ""
  {
  }

  lemma {:induction false} ComponentGrows(child: Elem, path: string, before: Tree, at: nat)
    requires Open(before, at, ComponentId(path)) && (path != "" || Segment(child) != "")
    ensures Grown(before, before + ComponentTree(child, path, ComponentId(path)), at, |ComponentId(path)|)
    decreases child, |child.children| + 2
  {
    var id, childPath := ComponentId(path), ChildPath(path, child);
    var node, more := Node(ComponentId(childPath), Some(id)), Subtree(child, childPath, ComponentId(childPath));
    ChildPathsAreLonger(path, child);
    Enters(before, node, at, id);
    SubtreeGrows(child, childPath, before + [node], |before|);
    Leaves(before, node, more, at, |id|, |node.id|);
  }

  lemma Enters(before: Tree, node: Node, at: nat, id: string)
    requires Open(before, at, id) && node.parent == Some(id) && IsComponentId(node.id) && |node.id| > |id|
    ensures Grown(before, before + [node], at, |id|) && Open(before + [node], |before|, node.id)
    ensures Beneath(before + [node], |before|, at)
  {
    OneNodeMore(before, node, at, |id|);
  }

  /** What grew beneath a node grew beneath the node that one hangs beneath. */
  lemma Leaves(before: Tree, node: Node, more: Tree, at: nat, length: nat, longer: nat)
    requires Grown(before, before + [node], at, length) && Beneath(before + [node], |before|, at)
    requires Grown(before + [node], before + [node] + more, |before|, longer) && length <= longer
    ensures Grown(before, before + ([node] + more), at, length)
  {
    var entered, after := before + [node], before + [node] + more;
    BeneathStays(entered, more, |before|, at);
    BeneathIsTransitive(after, |after| - 1, |before|, at);
    assert LeadsAsBefore(entered, after, length);
    GrownBoth(before, [node], more, at, length);
  }

  lemma {:induction false} SubtreeGrows(e: Elem, path: string, before: Tree, at: nat)
    requires Open(before, at, ComponentId(path)) && Named(e, path)
    ensures Grown(before, before + Subtree(e, path, ComponentId(path)), at, |ComponentId(path)|)
    decreases e, |e.children| + 1
  {
    var id := ComponentId(path);
    var items, components := ItemNodes(e, |e.items|, id), ComponentNodes(e, |e.children|, path, id);
    ItemsGrow(e, |e.items|, id, before, at);
    StillOpen(before, before + items, at, id);
    ComponentsGrow(e, |e.children|, path, before + items, at);
    GrownBoth(before, items, components, at, |id|);
  }

  /** The projection of every device is a pre-order, rooted in its first node. */
  lemma DevicesArePreOrders(device: Elem)
    requires Named(device, "")
    ensures PreOrder(TreeOf(device), 1)
  {
    var root := [Node(ROOT_NODE_ID, None)];
    assert NearestBefore(root, 1, ROOT_NODE_ID) == Some(0);
    assert ComponentId("") == ROOT_NODE_ID;
    assert Open(root, 0, ComponentId(""));
    SubtreeGrows(device, "", root, 0);
  }

  /** A subtree is one contiguous stretch: whatever stands between a node and one beneath it is beneath it too. */
  lemma {:induction false} SubtreesAreContiguous(tree: Tree, j: nat, i: nat, m: nat)
    requires PreOrder(tree, 1) && i < m <= j < |tree| && Beneath(tree, j, i)
    ensures Beneath(tree, m, i)
    decreases j
  {
    if m < j {
      var p := Near(tree, j).value;
      assert Continues(tree, j);
      BeneathIsTransitive(tree, j - 1, p, i);
      SubtreesAreContiguous(tree, j - 1, i, m);
    }
  }
}
