/** What the projection of a device shows (src/mtconnect/model.rs): every component and every data item of its element
    tree, each beneath its own element, in document order, and nothing else. */
module Projection {
  import opened Common
  import opened Probe

  /** The element some child positions lead to. */
  function At(e: Elem, address: seq<nat>): Option<Elem>
    decreases |address|
  {
    if address == [] then Some(e)
    else if address[0] < |e.children| then At(e.children[address[0]], address[1..])
    else None
  }

  /** The path of that element, from the path of the one they start from. */
  function PathTo(e: Elem, path: string, address: seq<nat>): string
    decreases |address|
  {
    if address == [] || address[0] >= |e.children| then path
    else PathTo(e.children[address[0]], ChildPath(path, e.children[address[0]]), address[1..])
  }

  /** Paths are tags, each with its name in brackets if it has one, separated by slashes; ids are paths after a
      prefix. */
  lemma PathsSay(path: string, e: Elem)
    ensures ChildPath(path, e)
            == (if path == "" then "" else path + "/")
               + (if e.name.None? then e.tag else e.tag + "[" + e.name.value + "]")
    ensures ComponentId(path) == "mtc:/component/" + path
  {
  }

  /** The node of a component beneath `e`: it names the component one level up. */
  predicate IsComponent(e: Elem, path: string, address: seq<nat>, node: Node) {
    && address != [] && At(e, address).Some?
    && node == Node("mtc:/component/" + PathTo(e, path, address),
                    Some("mtc:/component/" + PathTo(e, path, address[..|address| - 1])))
  }

  /** The node of a data item at or beneath `e`, which has an id and a known category: it names its component. */
  predicate IsItem(e: Elem, path: string, address: seq<nat>, node: Node) {
    && At(e, address).Some?
    && exists item :: item in At(e, address).value.items && item.id.Some? && item.hasCategory
                      && node == Node("mtc:/item/" + item.id.value, Some("mtc:/component/" + PathTo(e, path, address)))
  }

  /** The node at an address. */
  predicate Here(e: Elem, path: string, address: seq<nat>, node: Node) {
    IsComponent(e, path, address, node) || IsItem(e, path, address, node)
  }

  ghost predicate Projected(e: Elem, path: string, node: Node) {
    exists address :: Here(e, path, address, node)
  }

  lemma {:induction false} ItemsShown(e: Elem, n: nat, path: string, node: Node)
    requires n <= |e.items|
    ensures node in ItemNodes(e, n, ComponentId(path)) <==>
              exists k :: 0 <= k < n && e.items[k].id.Some? && e.items[k].hasCategory
                          && node == Node("mtc:/item/" + e.items[k].id.value, Some("mtc:/component/" + path))
  {
    if n > 0 {
      ItemsShown(e, n - 1, path, node);
    }
  }

  lemma OwnItems(e: Elem, path: string, node: Node)
    ensures node in ItemNodes(e, |e.items|, ComponentId(path)) <==> IsItem(e, path, [], node)
  {
    ItemsShown(e, |e.items|, path, node);
    if IsItem(e, path, [], node) {
      var item :| item in e.items && item.id.Some? && item.hasCategory
                  && node == Node("mtc:/item/" + item.id.value, Some("mtc:/component/" + PathTo(e, path, [])));
      var k :| 0 <= k < |e.items| && e.items[k] == item;
    }
  }

  /** What a child shows beneath its own position. */
  lemma ThroughTheChild(e: Elem, path: string, c: nat, rest: seq<nat>, node: Node)
    requires c < |e.children|
    ensures var child, address := e.children[c], [c] + rest;
            var childPath := ChildPath(path, child);
            && (IsItem(e, path, address, node) <==> IsItem(child, childPath, rest, node))
            && (IsComponent(e, path, address, node)
                <==> if rest == [] then node == Node(ComponentId(childPath), Some(ComponentId(path)))
                     else IsComponent(child, childPath, rest, node))
  {
    var child, address := e.children[c], [c] + rest;
    assert address[1..] == rest;
    if rest != [] {
      var up := address[..|address| - 1];
      assert up[1..] == rest[..|rest| - 1] && up[0] == c;
    } else {
      assert address[..0] == [] && address == [c];
      assert PathTo(child, ChildPath(path, child), []) == ChildPath(path, child);
      assert PathTo(e, path, []) == path;
    }
  }

  lemma InEither(all: Tree, a: Tree, b: Tree, node: Node)
    requires all == a + b
    ensures node in all <==> node in a || node in b
  {
  }

  /** What a function makes of each item. */
  function Each<A, B>(show: A -> B, items: seq<A>): (shown: seq<B>)
    ensures |shown| == |items| && forall i :: 0 <= i < |items| ==> shown[i] == show(items[i])
  {
    seq(|items|, i requires 0 <= i < |items| => show(items[i]))
  }

  lemma EachConcat<A, B>(show: A -> B, a: seq<A>, b: seq<A>)
    ensures Each(show, a + b) == Each(show, a) + Each(show, b)
  {
  }

  lemma EachSnoc<A, B>(show: A -> B, items: seq<A>, n: nat)
    requires 0 < n <= |items|
    ensures Each(show, items[..n]) == Each(show, items[..n - 1]) + [show(items[n - 1])]
  {
    EachConcat(show, items[..n - 1], [items[n - 1]]);
    assert items[..n] == items[..n - 1] + [items[n - 1]] && Each(show, [items[n - 1]]) == [show(items[n - 1])];
  }

  /** What a child component shows. */
  function Shows(path: string, id: string): (show: Elem -> Tree)
    ensures forall child :: show(child) == ComponentTree(child, path, id)
  {
    child => ComponentTree(child, path, id)
  }

  lemma LastComponent(e: Elem, n: nat, path: string, id: string)
    requires 0 < n <= |e.children|
    ensures ComponentNodes(e, n, path, id) == ComponentNodes(e, n - 1, path, id) + Shows(path, id)(e.children[n - 1])
  {
  }

  lemma OnePartMore(all: Tree, front: Tree, last: Tree, parts: seq<Tree>, more: seq<Tree>)
    requires all == front + last && front == Flatten(parts) && more == parts + [last]
    ensures all == Flatten(more)
  {
    FlattenSnoc(parts, last);
  }

  lemma {:induction false} FirstAreParts(e: Elem, n: nat, path: string, id: string)
    requires n <= |e.children|
    ensures ComponentNodes(e, n, path, id) == Flatten(Each(Shows(path, id), e.children[..n]))
    decreases n
  {
    if n > 0 {
      var show := Shows(path, id);
      FirstAreParts(e, n - 1, path, id);
      LastComponent(e, n, path, id);
      EachSnoc(show, e.children, n);
      OnePartMore(ComponentNodes(e, n, path, id), ComponentNodes(e, n - 1, path, id), show(e.children[n - 1]),
                  Each(show, e.children[..n - 1]), Each(show, e.children[..n]));
    }
  }

  lemma ComponentsAreParts(e: Elem, path: string, id: string)
    ensures ComponentNodes(e, |e.children|, path, id) == Flatten(Each(Shows(path, id), e.children))
  {
    FirstAreParts(e, |e.children|, path, id);
    assert e.children[..|e.children|] == e.children;
  }

  lemma {:induction false} InSomePart(parts: seq<Tree>, node: Node) returns (c: nat)
    requires node in Flatten(parts)
    ensures c < |parts| && node in parts[c]
  {
    var n := |parts| - 1;
    if node in parts[n] {
      c := n;
    } else {
      c := InSomePart(parts[..n], node);
    }
  }

  lemma {:induction false} PartIsIn(parts: seq<Tree>, c: nat, node: Node)
    requires c < |parts| && node in parts[c]
    ensures node in Flatten(parts)
  {
    var n := |parts| - 1;
    if c < n {
      PartIsIn(parts[..n], c, node);
    }
  }

  lemma SubtreeShows(e: Elem, path: string, id: string, node: Node)
    ensures node in Subtree(e, path, id) <==>
              node in ItemNodes(e, |e.items|, id) || node in ComponentNodes(e, |e.children|, path, id)
  {
    InEither(Subtree(e, path, id), ItemNodes(e, |e.items|, id), ComponentNodes(e, |e.children|, path, id), node);
  }

  /** Where a node among the components comes from. */
  lemma FromWhichChild(e: Elem, path: string, id: string, node: Node) returns (c: nat)
    requires node in ComponentNodes(e, |e.children|, path, id)
    ensures c < |e.children| && node in ComponentTree(e.children[c], path, id)
  {
    ComponentsAreParts(e, path, id);
    c := InSomePart(Each(Shows(path, id), e.children), node);
  }

  lemma FromThatChild(e: Elem, path: string, id: string, node: Node, c: nat)
    requires c < |e.children| && node in ComponentTree(e.children[c], path, id)
    ensures node in ComponentNodes(e, |e.children|, path, id)
  {
    ComponentsAreParts(e, path, id);
    PartIsIn(Each(Shows(path, id), e.children), c, node);
  }

  lemma ChildInParts(child: Elem, path: string, node: Node)
    ensures var childPath := ChildPath(path, child);
            node in ComponentTree(child, path, ComponentId(path)) <==>
              || node == Node(ComponentId(childPath), Some(ComponentId(path)))
              || node in Subtree(child, childPath, ComponentId(childPath))
  {
    var childPath := ChildPath(path, child);
    InEither(ComponentTree(child, path, ComponentId(path)), [Node(ComponentId(childPath), Some(ComponentId(path)))],
             Subtree(child, childPath, ComponentId(childPath)), node);
  }

  lemma SubtreeInParts(e: Elem, path: string, id: string)
    ensures Subtree(e, path, id) == ItemNodes(e, |e.items|, id) + ComponentNodes(e, |e.children|, path, id)
  {
  }

  /** Every node of a subtree has an address. */
  lemma {:induction false} HasAnAddress(e: Elem, path: string, node: Node) returns (address: seq<nat>)
    requires node in Subtree(e, path, ComponentId(path))
    ensures Here(e, path, address, node)
    decreases e
  {
    var id := ComponentId(path);
    SubtreeShows(e, path, id, node);
    OwnItems(e, path, node);
    if node in ItemNodes(e, |e.items|, id) {
      address := [];
    } else {
      var c := FromWhichChild(e, path, id, node);
      var child := e.children[c];
      assert child in e.children;
      ChildInParts(child, path, node);
      var rest := [];
      if node != Node(ComponentId(ChildPath(path, child)), Some(id)) {
        rest := HasAnAddress(child, ChildPath(path, child), node);
      }
      ThroughTheChild(e, path, c, rest, node);
      address := [c] + rest;
    }
  }

  /** And every address leads to a node of it. */
  lemma {:induction false} IsAtItsAddress(e: Elem, path: string, address: seq<nat>, node: Node)
    requires Here(e, path, address, node)
    ensures node in Subtree(e, path, ComponentId(path))
    decreases |address|
  {
    var id := ComponentId(path);
    SubtreeShows(e, path, id, node);
    if address == [] {
      OwnItems(e, path, node);
    } else {
      var c, rest := address[0], address[1..];
      assert address == [c] + rest;
      var child := e.children[c];
      ThroughTheChild(e, path, c, rest, node);
      if node != Node(ComponentId(ChildPath(path, child)), Some(id)) {
        IsAtItsAddress(child, ChildPath(path, child), rest, node);
      }
      ChildInParts(child, path, node);
      FromThatChild(e, path, id, node, c);
    }
  }

  /** The projection of a device shows its root, every component and every data item, each beneath its own
      component, and nothing else. */
  lemma EverythingIsShown(device: Elem, node: Node)
    ensures node in TreeOf(device) <==> node == Node("mtc:/component/", None) || Projected(device, "", node)
  {
    assert ComponentId("") == ROOT_NODE_ID;
    InEither(TreeOf(device), [Node(ROOT_NODE_ID, None)], Subtree(device, "", ROOT_NODE_ID), node);
    if node in Subtree(device, "", ROOT_NODE_ID) {
      var address := HasAnAddress(device, "", node);
      assert Here(device, "", address, node);
    }
    if address :| Here(device, "", address, node) {
      IsAtItsAddress(device, "", address, node);
    }
  }

  /** How many nodes an element tree has: one for each data item that is one, and one for each component. */
  function ItemCount(items: seq<DataItem>): nat {
    if items == [] then 0
    else
      var last := items[|items| - 1];
      ItemCount(items[..|items| - 1]) + if last.id.Some? && last.hasCategory then 1 else 0
  }

  function NodeCount(e: Elem, n: nat): nat
    requires n <= |e.children|
    decreases e, n
  {
    if n == 0 then ItemCount(e.items)
    else
      var child := e.children[n - 1];
      NodeCount(e, n - 1) + 1 + NodeCount(child, |child.children|)
  }

  lemma {:induction false} ItemsOnce(e: Elem, n: nat, id: string)
    requires n <= |e.items|
    ensures |ItemNodes(e, n, id)| == ItemCount(e.items[..n])
  {
    if n > 0 {
      ItemsOnce(e, n - 1, id);
      assert e.items[..n][..n - 1] == e.items[..n - 1];
    }
  }

  lemma OneMoreLong(all: Tree, a: Tree, b: Tree)
    requires all == a + b
    ensures |all| == |a| + |b|
  {
  }

  lemma OneChildCounted(e: Elem, n: nat)
    requires 0 < n <= |e.children|
    ensures var child := e.children[n - 1];
            NodeCount(e, n) == NodeCount(e, n - 1) + 1 + NodeCount(child, |child.children|)
  {
  }

  lemma ChildOnce(child: Elem, path: string, id: string)
    ensures |ComponentTree(child, path, id)|
            == 1 + |Subtree(child, ChildPath(path, child), ComponentId(ChildPath(path, child)))|
  {
  }

  lemma {:induction false} ComponentsOnce(e: Elem, n: nat, path: string, id: string)
    requires n <= |e.children|
    ensures ItemCount(e.items) + |ComponentNodes(e, n, path, id)| == NodeCount(e, n)
    decreases e, n
  {
    if n > 0 {
      var child := e.children[n - 1];
      assert child in e.children;
      ComponentsOnce(e, n - 1, path, id);
      SubtreeOnce(child, ChildPath(path, child), ComponentId(ChildPath(path, child)));
      ChildOnce(child, path, id);
      OneMoreLong(ComponentNodes(e, n, path, id), ComponentNodes(e, n - 1, path, id), ComponentTree(child, path, id));
      OneChildCounted(e, n);
    }
  }

  lemma {:induction false} SubtreeOnce(e: Elem, path: string, id: string)
    ensures |Subtree(e, path, id)| == NodeCount(e, |e.children|)
    decreases e, |e.children| + 1
  {
    ItemsOnce(e, |e.items|, id);
    assert e.items[..|e.items|] == e.items;
    ComponentsOnce(e, |e.children|, path, id);
  }

  /** Each of them once. */
  lemma EverythingIsShownOnce(device: Elem)
    ensures |TreeOf(device)| == 1 + NodeCount(device, |device.children|)
  {
    SubtreeOnce(device, "", ROOT_NODE_ID);
  }

  lemma {:induction false} ItemsApart(e: Elem, f: Elem, g: Elem, n: nat, id: string)
    requires e.items == f.items + g.items && n <= |g.items|
    ensures ItemNodes(e, |f.items| + n, id) == ItemNodes(f, |f.items|, id) + ItemNodes(g, n, id)
    decreases n
  {
    if n == 0 {
      SameItems(e, f, |f.items|, id);
    } else {
      ItemsApart(e, f, g, n - 1, id);
      var item := g.items[n - 1];
      var last := if item.id.Some? && item.hasCategory then [Node(ITEM_PREFIX + item.id.value, Some(id))] else [];
      assert e.items[|f.items| + n - 1] == item;
      Together(ItemNodes(f, |f.items|, id), ItemNodes(g, n - 1, id), last);
    }
  }

  lemma {:induction false} SameItems(e: Elem, f: Elem, n: nat, id: string)
    requires n <= |e.items| && n <= |f.items| && e.items[..n] == f.items[..n]
    ensures ItemNodes(e, n, id) == ItemNodes(f, n, id)
  {
    if n > 0 {
      assert e.items[..n][..n - 1] == e.items[..n - 1] && f.items[..n][..n - 1] == f.items[..n - 1];
      assert e.items[n - 1] == e.items[..n][n - 1] == f.items[n - 1];
      SameItems(e, f, n - 1, id);
    }
  }

  lemma ComponentsApart(e: Elem, f: Elem, g: Elem, path: string, id: string)
    requires e.children == f.children + g.children
    ensures ComponentNodes(e, |e.children|, path, id)
            == ComponentNodes(f, |f.children|, path, id) + ComponentNodes(g, |g.children|, path, id)
  {
    ComponentsAreParts(e, path, id);
    ComponentsAreParts(f, path, id);
    ComponentsAreParts(g, path, id);
    FlatApart(Shows(path, id), f.children, g.children);
  }

  lemma FlatApart(show: Elem -> Tree, front: seq<Elem>, back: seq<Elem>)
    ensures Flatten(Each(show, front + back)) == Flatten(Each(show, front)) + Flatten(Each(show, back))
  {
    EachConcat(show, front, back);
    FlattenConcat(Each(show, front), Each(show, back));
  }

  /** In document order: an element's data items before its components, and components one after the other, each
      with all of its own before the next. */
  lemma InDocumentOrder(e: Elem, front: seq<Elem>, back: seq<Elem>, path: string, id: string)
    requires e.children == front + back
    ensures Subtree(e, path, id)
            == Subtree(e.(children := front), path, id) + Subtree(e.(items := [], children := back), path, id)
  {
    PartsInOrder(e, e.(children := front), e.(items := [], children := back), path, id);
  }

  lemma PartsInOrder(e: Elem, f: Elem, g: Elem, path: string, id: string)
    requires e.children == f.children + g.children && f.items == e.items && g.items == []
    ensures Subtree(e, path, id) == Subtree(f, path, id) + Subtree(g, path, id)
  {
    SameItems(e, f, |e.items|, id);
    ComponentsApart(e, f, g, path, id);
    SubtreeInParts(e, path, id);
    SubtreeInParts(f, path, id);
    SubtreeInParts(g, path, id);
    InTwoParts(ItemNodes(e, |e.items|, id), ComponentNodes(f, |f.children|, path, id),
               ComponentNodes(g, |g.children|, path, id), ComponentNodes(e, |e.children|, path, id),
               Subtree(f, path, id), Subtree(g, path, id));
  }

  lemma InTwoParts(items: Tree, ahead: Tree, behind: Tree, all: Tree, first: Tree, second: Tree)
    requires all == ahead + behind && first == items + ahead && second == [] + behind
    ensures items + all == first + second
  {
    assert second == behind;
    Together(items, ahead, behind);
  }

  /** And data items one after the other. */
  lemma ItemsInDocumentOrder(e: Elem, front: seq<DataItem>, back: seq<DataItem>, path: string, id: string)
    requires e.children == [] && e.items == front + back
    ensures Subtree(e, path, id) == Subtree(e.(items := front), path, id) + Subtree(e.(items := back), path, id)
  {
    var f, g := e.(items := front), e.(items := back);
    ItemsApart(e, f, g, |back|, id);
    assert Subtree(e, path, id) == ItemNodes(e, |e.items|, id) + [];
    assert Subtree(f, path, id) == ItemNodes(f, |front|, id) + [];
    assert Subtree(g, path, id) == ItemNodes(g, |back|, id) + [];
  }

  /** And a component right before all of its own. */
  lemma ComponentBeforeItsOwn(e: Elem, path: string, id: string)
    requires e.items == [] && |e.children| == 1
    ensures var childPath := ChildPath(path, e.children[0]);
            Subtree(e, path, id)
            == [Node("mtc:/component/" + childPath, Some(id))]
               + Subtree(e.children[0], childPath, "mtc:/component/" + childPath)
  {
    OneComponentMore(e, 0, path, id);
    var tree := ComponentTree(e.children[0], path, id);
    assert ComponentNodes(e, 0, path, id) == [] && ItemNodes(e, 0, id) == [];
    assert [] + ([] + tree) == tree;
  }
}
