/** Browsing the probe tree (src/commands.rs): which nodes a configured signal binds, and the budgeted,
    depth-limited expansion of one node. */
module Browse {
  import opened Common
  import opened Probe

  // ---------------------------------------------------------------------------------------------
  // Ids
  // ---------------------------------------------------------------------------------------------

  /** Node indices by id; of nodes with the same id the last one stays. */
  function IndexOf(tree: Tree): (index: map<string, nat>)
    ensures forall id :: id in index ==> index[id] < |tree| && tree[index[id]].id == id
  {
    if tree == [] then map[]
    else
      var n := |tree| - 1;
      IndexOf(tree[..n])[tree[n].id := n]
  }

  lemma {:induction false} TheLastStays(tree: Tree, i: nat)
    requires i < |tree|
    ensures tree[i].id in IndexOf(tree) && i <= IndexOf(tree)[tree[i].id]
  {
    if i < |tree| - 1 {
      TheLastStays(tree[..|tree| - 1], i);
    }
  }

  /** The node a node's parent id leads to. */
  function Up(tree: Tree, i: nat): (parent: Option<nat>)
    requires i < |tree|
    ensures parent.Some? ==> parent.value < |tree| && tree[i].parent == Some(tree[parent.value].id)
  {
    if tree[i].parent.Some? && tree[i].parent.value in IndexOf(tree)
    then Some(IndexOf(tree)[tree[i].parent.value])
    else None
  }

  ghost predicate UniqueIds(tree: Tree) {
    forall i, j :: 0 <= i < j < |tree| ==> tree[i].id != tree[j].id
  }

  // ---------------------------------------------------------------------------------------------
  // Where a node hangs
  // ---------------------------------------------------------------------------------------------

  /** The last of the first `n` nodes with an id. */
  function NearestBefore(tree: Tree, n: nat, id: string): (at: Option<nat>)
    requires n <= |tree|
    ensures at.Some? ==> at.value < n && tree[at.value].id == id
    ensures at.None? ==> forall i :: 0 <= i < n ==> tree[i].id != id
  {
    if n == 0 then None
    else if tree[n - 1].id == id then Some(n - 1)
    else NearestBefore(tree, n - 1, id)
  }

  /** The node a node hangs beneath: the walk is inside its parent's element, so that is the nearest earlier node
      with the id it names. */
  function Near(tree: Tree, i: nat): (parent: Option<nat>)
    requires i < |tree|
    ensures parent.Some? ==> parent.value < i && tree[i].parent == Some(tree[parent.value].id)
  {
    if tree[i].parent.None? then None else NearestBefore(tree, i, tree[i].parent.value)
  }

  /** A node stands at or beneath another. */
  ghost predicate Beneath(tree: Tree, j: nat, i: nat)
    requires j < |tree|
    decreases j
  {
    j == i || (Near(tree, j).Some? && Beneath(tree, Near(tree, j).value, i))
  }

  /** Every node but parentless ones hangs beneath an earlier one, and none beneath a data item. */
  ghost predicate WellNested(tree: Tree) {
    forall i :: 0 <= i < |tree| && tree[i].parent.Some? ==>
      Near(tree, i).Some? && DataItemId(tree[Near(tree, i).value]).None?
  }

  lemma ComponentsAreNoItems(id: string)
    requires IsComponentId(id)
    ensures !(ITEM_PREFIX <= id)
  {
    assert COMPONENT_PREFIX[5] == id[5];
  }

  /** The projection of every device is well nested. */
  lemma DevicesAreWellNested(device: Elem)
    ensures WellNested(TreeOf(device))
  {
    var tree := TreeOf(device);
    forall i | 0 <= i < |tree| && tree[i].parent.Some?
      ensures Near(tree, i).Some? && DataItemId(tree[Near(tree, i).value]).None?
    {
      ParentsComeFirst(device, i);
      var p :| 0 <= p < |tree[..i]| && tree[..i][p].id == tree[i].parent.value;
      assert tree[p].id == tree[i].parent.value;
      ComponentsAreNoItems(tree[i].parent.value);
    }
  }

  // ---------------------------------------------------------------------------------------------
  // Which nodes a configured signal binds
  // ---------------------------------------------------------------------------------------------

  function DataItemId(node: Node): Option<string> {
    if ITEM_PREFIX <= node.id then Some(node.id[|ITEM_PREFIX|..]) else None
  }

  predicate IsBound(node: Node, bound: set<string>) {
    DataItemId(node).Some? && DataItemId(node).value in bound
  }

  /** The flags once the reverse pass has visited every node from `i` on. */
  function FlagsFrom(tree: Tree, bound: set<string>, i: nat): (flags: seq<bool>)
    ensures |flags| == |tree|
    decreases |tree| - i
  {
    if i >= |tree| then seq(|tree|, k requires 0 <= k < |tree| => IsBound(tree[k], bound))
    else
      var flags := FlagsFrom(tree, bound, i + 1);
      if flags[i] && Up(tree, i).Some? then flags[Up(tree, i).value := true] else flags
  }

  method ConfiguredFlags(tree: Tree, bound: set<string>) returns (flags: array<bool>)
    ensures fresh(flags) && flags[..] == FlagsFrom(tree, bound, 0)
  {
    var index := IndexOf(tree);
    flags := new bool[|tree|](k requires 0 <= k < |tree| => IsBound(tree[k], bound));
    assert flags[..] == FlagsFrom(tree, bound, |tree|);
    for i := |tree| downto 0
      invariant flags[..] == FlagsFrom(tree, bound, i)
    {
      ghost var before := flags[..];
      if flags[i] && tree[i].parent.Some? && tree[i].parent.value in index {
        flags[index[tree[i].parent.value]] := true;
      }
    }
  }

  /** A bound data item stands at or beneath a node. */
  ghost predicate Covers(tree: Tree, bound: set<string>, i: nat) {
    exists j :: 0 <= j < |tree| && IsBound(tree[j], bound) && Beneath(tree, j, i)
  }

  /** Some data item stands beneath a node. */
  ghost predicate HoldsItem(tree: Tree, i: nat) {
    exists j :: 0 <= j < |tree| && j != i && DataItemId(tree[j]).Some? && Beneath(tree, j, i)
  }

  /** No node with a data item beneath it has its id repeated by a later node. */
  ghost predicate HoldersAreUnique(tree: Tree) {
    forall a, b :: 0 <= a < b < |tree| && HoldsItem(tree, a) ==> tree[a].id != tree[b].id
  }

  /** The pass flags exactly the nodes with a bound data item at or beneath them, whatever is bound. */
  ghost predicate FlagsAreRight(tree: Tree) {
    forall bound: set<string>, k :: 0 <= k < |tree| ==> (FlagsFrom(tree, bound, 0)[k] <==> Covers(tree, bound, k))
  }

  lemma {:induction false} BeneathAChild(tree: Tree, j: nat, i: nat) returns (c: nat)
    requires j < |tree| && Beneath(tree, j, i) && j != i
    ensures c < |tree| && Near(tree, c) == Some(i) && Beneath(tree, j, c)
    decreases j
  {
    var p := Near(tree, j).value;
    if p == i {
      c := j;
    } else {
      c := BeneathAChild(tree, p, i);
    }
  }

  lemma {:induction false} BeneathIsTransitive(tree: Tree, j: nat, c: nat, i: nat)
    requires j < |tree| && c < |tree| && Beneath(tree, j, c) && Beneath(tree, c, i)
    ensures Beneath(tree, j, i)
    decreases j
  {
    if j != c {
      BeneathIsTransitive(tree, Near(tree, j).value, c, i);
    }
  }

  /** A node covers a bound item exactly when it is one or one of its children does. */
  lemma CoversByChildren(tree: Tree, bound: set<string>, i: nat)
    requires i < |tree|
    ensures Covers(tree, bound, i) <==>
      IsBound(tree[i], bound) || exists c :: 0 <= c < |tree| && Near(tree, c) == Some(i) && Covers(tree, bound, c)
  {
    if Covers(tree, bound, i) && !IsBound(tree[i], bound) {
      var j :| 0 <= j < |tree| && IsBound(tree[j], bound) && Beneath(tree, j, i);
      var c := BeneathAChild(tree, j, i);
      assert Covers(tree, bound, c);
    }
    if c :| 0 <= c < |tree| && Near(tree, c) == Some(i) && Covers(tree, bound, c) {
      var j :| 0 <= j < |tree| && IsBound(tree[j], bound) && Beneath(tree, j, c);
      assert Beneath(tree, i, i) && Beneath(tree, c, i);
      BeneathIsTransitive(tree, j, c, i);
    }
    if IsBound(tree[i], bound) {
      assert Beneath(tree, i, i);
    }
  }

  /** Where it matters, the index leads to the node one hangs beneath. */
  lemma UpIsNear(tree: Tree, bound: set<string>, c: nat)
    requires WellNested(tree) && HoldersAreUnique(tree) && c < |tree| && Covers(tree, bound, c)
    ensures Up(tree, c) == Near(tree, c)
  {
    if tree[c].parent.Some? {
      var p := Near(tree, c).value;
      var j :| 0 <= j < |tree| && IsBound(tree[j], bound) && Beneath(tree, j, c);
      assert Beneath(tree, p, p) && Beneath(tree, c, p);
      BeneathIsTransitive(tree, j, c, p);
      NotAbove(tree, j, c);
      assert HoldsItem(tree, p);
      TheLastStays(tree, p);
    }
  }

  lemma {:induction false} NotAbove(tree: Tree, j: nat, i: nat)
    requires j < |tree| && Beneath(tree, j, i)
    ensures i <= j
    decreases j
  {
    if j != i {
      NotAbove(tree, Near(tree, j).value, i);
    }
  }

  /** A node is bound, or a child of it from `i` on covers a bound item. */
  ghost predicate CoversFrom(tree: Tree, bound: set<string>, i: nat, k: nat)
    requires k < |tree|
  {
    IsBound(tree[k], bound) || exists c :: i <= c < |tree| && Up(tree, c) == Some(k) && Covers(tree, bound, c)
  }

  lemma OneVisit(tree: Tree, bound: set<string>, i: nat, k: nat)
    requires i < |tree| && k < |tree|
    ensures FlagsFrom(tree, bound, i)[k] <==>
      FlagsFrom(tree, bound, i + 1)[k] || (FlagsFrom(tree, bound, i + 1)[i] && Up(tree, i) == Some(k))
  {
  }

  lemma OneVisitMore(tree: Tree, bound: set<string>, i: nat, k: nat)
    requires i < |tree| && k < |tree|
    ensures CoversFrom(tree, bound, i, k) <==>
      CoversFrom(tree, bound, i + 1, k) || (Up(tree, i) == Some(k) && Covers(tree, bound, i))
  {
  }

  lemma AllVisited(tree: Tree, bound: set<string>, i: nat, k: nat)
    requires WellNested(tree) && HoldersAreUnique(tree) && k < |tree| && i <= k + 1
    ensures CoversFrom(tree, bound, i, k) <==> Covers(tree, bound, k)
  {
    CoversByChildren(tree, bound, k);
    forall c | 0 <= c < |tree| && Covers(tree, bound, c) ensures Up(tree, c) == Near(tree, c) {
      UpIsNear(tree, bound, c);
    }
  }

  /** What the pass has established once it has visited every node from `i` on. */
  lemma {:induction false} PassSoFar(tree: Tree, bound: set<string>, i: nat, k: nat)
    requires WellNested(tree) && HoldersAreUnique(tree) && i <= |tree| && k < |tree|
    ensures FlagsFrom(tree, bound, i)[k] <==> CoversFrom(tree, bound, i, k)
    decreases |tree| - i
  {
    if i < |tree| {
      PassSoFar(tree, bound, i + 1, k);
      PassSoFar(tree, bound, i + 1, i);
      PassStep(tree, bound, i, k);
    }
  }

  lemma PassStep(tree: Tree, bound: set<string>, i: nat, k: nat)
    requires WellNested(tree) && HoldersAreUnique(tree) && i < |tree| && k < |tree|
    requires FlagsFrom(tree, bound, i + 1)[k] <==> CoversFrom(tree, bound, i + 1, k)
    requires FlagsFrom(tree, bound, i + 1)[i] <==> CoversFrom(tree, bound, i + 1, i)
    ensures FlagsFrom(tree, bound, i)[k] <==> CoversFrom(tree, bound, i, k)
  {
    AllVisited(tree, bound, i + 1, i);
    OneVisit(tree, bound, i, k);
    OneVisitMore(tree, bound, i, k);
  }

  /** A node whose id a later node repeats is never found: it is flagged only when it is bound itself. */
  lemma {:induction false} TheRepeatedAreMissed(tree: Tree, bound: set<string>, i: nat, a: nat, b: nat)
    requires a < b < |tree| && tree[a].id == tree[b].id && !IsBound(tree[a], bound)
    ensures !FlagsFrom(tree, bound, i)[a]
    decreases |tree| - i
  {
    if i < |tree| {
      TheRepeatedAreMissed(tree, bound, i + 1, a, b);
      TheLastStays(tree, b);
    }
  }

  /** The configured flag, exactly: in a well nested tree the reverse pass flags the nodes with a bound data item at
      or beneath them, whatever is bound, if and only if no node with a data item beneath it has its id repeated by
      a later node. */
  lemma FlagsAreRightExactlyWhen(tree: Tree)
    requires WellNested(tree)
    ensures FlagsAreRight(tree) <==> HoldersAreUnique(tree)
  {
    if HoldersAreUnique(tree) {
      forall bound: set<string>, k | 0 <= k < |tree|
        ensures FlagsFrom(tree, bound, 0)[k] <==> Covers(tree, bound, k)
      {
        PassSoFar(tree, bound, 0, k);
        AllVisited(tree, bound, 0, k);
      }
    } else {
      var a, b :| 0 <= a < b < |tree| && HoldsItem(tree, a) && tree[a].id == tree[b].id;
      var j :| 0 <= j < |tree| && j != a && DataItemId(tree[j]).Some? && Beneath(tree, j, a);
      var bound := {DataItemId(tree[j]).value};
      var c := BeneathAChild(tree, j, a);
      assert DataItemId(tree[a]).None?;
      TheRepeatedAreMissed(tree, bound, 0, a, b);
      assert IsBound(tree[j], bound) && Covers(tree, bound, a);
      assert !FlagsFrom(tree, bound, 0)[a];
    }
  }

  /** For every device. */
  lemma ConfiguredFlagsAreRightExactlyWhen(device: Elem)
    ensures FlagsAreRight(TreeOf(device)) <==> HoldersAreUnique(TreeOf(device))
    ensures UniqueIds(TreeOf(device)) ==> FlagsAreRight(TreeOf(device))
  {
    DevicesAreWellNested(device);
    FlagsAreRightExactlyWhen(TreeOf(device));
  }

  const TWIN := Elem("Linear", None, [], [])
  const TWIN_WITH_ITEM := Elem("Linear", None, [DataItem(Some("x"), true)], [])
  const TWIN_DEVICE := Elem("Device", None, [], [TWIN_WITH_ITEM, TWIN])
  const TWIN_ID := COMPONENT_PREFIX + "Linear"
  const ITEM_ID := ITEM_PREFIX + "x"
  const TWIN_TREE := [Node(ROOT_NODE_ID, None), Node(TWIN_ID, Some(ROOT_NODE_ID)), Node(ITEM_ID, Some(TWIN_ID)),
                     Node(TWIN_ID, Some(ROOT_NODE_ID))]

  lemma TwinTrees()
    ensures ComponentTree(TWIN_WITH_ITEM, "", ROOT_NODE_ID) == [TWIN_TREE[1], TWIN_TREE[2]]
    ensures ComponentTree(TWIN, "", ROOT_NODE_ID) == [TWIN_TREE[3]]
  {
    var item := [Node(ITEM_ID, Some(TWIN_ID))];
    assert ItemNodes(TWIN_WITH_ITEM, 1, TWIN_ID) == ItemNodes(TWIN_WITH_ITEM, 0, TWIN_ID) + item;
    assert Subtree(TWIN_WITH_ITEM, "Linear", TWIN_ID) == item;
    assert Subtree(TWIN, "Linear", TWIN_ID) == [];
  }

  lemma TwinsProject()
    ensures TreeOf(TWIN_DEVICE) == TWIN_TREE
  {
    TwinTrees();
    var first := ComponentNodes(TWIN_DEVICE, 1, "", ROOT_NODE_ID);
    assert first == ComponentNodes(TWIN_DEVICE, 0, "", ROOT_NODE_ID) + [TWIN_TREE[1], TWIN_TREE[2]];
    assert ComponentNodes(TWIN_DEVICE, 2, "", ROOT_NODE_ID) == first + [TWIN_TREE[3]];
  }

  lemma TwinsShareAnId()
    ensures Up(TWIN_TREE, 2) == Some(3)
  {
    assert TWIN_TREE[3].id == TWIN_ID && TWIN_TREE[1].id == TWIN_TREE[3].id;
    TheLastStays(TWIN_TREE, 3);
  }

  lemma OnlyTheItemIsBound(k: nat)
    requires k < 4
    ensures IsBound(TWIN_TREE[k], {"x"}) <==> k == 2
  {
    var id := TWIN_TREE[k].id;
    if k == 2 {
      assert id[|ITEM_PREFIX|..] == "x";
    } else {
      ComponentsAreNoItems(id);
    }
  }

  lemma TwinFlags()
    ensures FlagsFrom(TWIN_TREE, {"x"}, 0) == [false, false, true, true]
  {
    TwinsShareAnId();
    forall k | 0 <= k < 4 ensures IsBound(TWIN_TREE[k], {"x"}) <==> k == 2 { OnlyTheItemIsBound(k); }
    assert FlagsFrom(TWIN_TREE, {"x"}, 4) == [false, false, true, false];
    assert FlagsFrom(TWIN_TREE, {"x"}, 3) == [false, false, true, false];
    assert FlagsFrom(TWIN_TREE, {"x"}, 2) == [false, false, true, true];
    assert FlagsFrom(TWIN_TREE, {"x"}, 1) == [false, false, true, true] by {
      assert !FlagsFrom(TWIN_TREE, {"x"}, 2)[1];
    }
    assert !FlagsFrom(TWIN_TREE, {"x"}, 1)[0];
  }

  /** Two unnamed sibling components of one element name share their node id, and then the pass misses: the
      bound item's own component and the device stay unflagged, the other component is flagged. */
  lemma TwinComponentsMislead()
    ensures exists device: Elem, bound: set<string> ::
      var tree := TreeOf(device);
      var flags := FlagsFrom(tree, bound, 0);
      && |tree| == 4 && IsBound(tree[2], bound)
      && tree[2].parent == Some(tree[1].id) && tree[1].parent == Some(tree[0].id)
      && !flags[0] && !flags[1] && flags[3]
  {
    TwinsProject();
    TwinFlags();
    OnlyTheItemIsBound(2);
    assert TreeOf(TWIN_DEVICE)[2].parent == Some(TreeOf(TWIN_DEVICE)[1].id);
  }
}
