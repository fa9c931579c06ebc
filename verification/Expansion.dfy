/** The `contains` refs of one node (src/commands.rs): expanded a few levels deep, and bounded as a whole
    by a budget the levels share. */
module Expansion {
  import opened Common
  import opened Probe
  import opened Browse
  import opened Nesting

  /** The direct children of an id, in tree order. */
  function KidsOf(tree: Tree, id: string): (kids: seq<nat>)
    ensures forall k :: 0 <= k < |kids| ==> kids[k] < |tree|
  {
    if tree == [] then []
    else
      var n := |tree| - 1;
      KidsOf(tree[..n], id) + if tree[n].parent == Some(id) then [n] else []
  }

  lemma {:induction false} KidsAreTheChildren(tree: Tree, id: string)
    ensures forall c: nat :: c in KidsOf(tree, id) <==> c < |tree| && tree[c].parent == Some(id)
    ensures forall i, j :: 0 <= i < j < |KidsOf(tree, id)| ==> KidsOf(tree, id)[i] < KidsOf(tree, id)[j]
  {
    if tree != [] {
      KidsAreTheChildren(tree[..|tree| - 1], id);
    }
  }

  function Kids(tree: Tree, i: nat): seq<nat>
    requires i < |tree|
  {
    KidsOf(tree, tree[i].id)
  }

  /** A table of children: every id some node names as its parent, with the nodes that do. */
  ghost predicate Tabulates(children: map<string, seq<nat>>, tree: Tree) {
    forall id :: if id in children then children[id] == KidsOf(tree, id) != [] else KidsOf(tree, id) == []
  }

  method ChildrenByParent(tree: Tree) returns (children: map<string, seq<nat>>)
    ensures Tabulates(children, tree)
  {
    children := map[];
    for i := 0 to |tree|
      invariant Tabulates(children, tree[..i])
    {
      assert tree[..i + 1][..i] == tree[..i];
      var parent := tree[i].parent;
      if parent.Some? {
        var siblings := if parent.value in children then children[parent.value] else [];
        children := children[parent.value := siblings + [i]];
      }
    }
    assert tree[..|tree|] == tree;
  }

  // ---------------------------------------------------------------------------------------------
  // The subtree an expansion may show
  // ---------------------------------------------------------------------------------------------

  /** A node of the subtree, how many levels may be shown from its own level down, and whether children of
      it come next. */
  datatype Spot = Spot(node: nat, depth: nat, opens: bool)

  function SpotOf(tree: Tree, c: nat, depth: nat): Spot
    requires c < |tree|
  {
    Spot(c, depth, depth > 1 && Kids(tree, c) != [])
  }

  /** Everything an expansion of a node may show: the depth-limited subtree, in pre-order. */
  function Below(tree: Tree, i: nat, depth: nat): seq<Spot>
    requires i < |tree|
    decreases depth, 2, 0
  {
    BelowFirst(tree, i, |Kids(tree, i)|, depth)
  }

  /** The same for the first `n` children only. */
  function BelowFirst(tree: Tree, i: nat, n: nat, depth: nat): seq<Spot>
    requires i < |tree| && n <= |Kids(tree, i)|
    decreases depth, 1, n
  {
    if n == 0 then []
    else
      BelowFirst(tree, i, n - 1, depth) + AtAndBelow(tree, Kids(tree, i)[n - 1], depth)
  }

  /** A node and what may be shown beneath it. */
  function AtAndBelow(tree: Tree, c: nat, depth: nat): seq<Spot>
    requires c < |tree|
    decreases depth, 0, 0
  {
    [SpotOf(tree, c, depth)] + if depth > 1 then Below(tree, c, depth - 1) else []
  }

  /** The node `k` levels up. */
  function Climb(tree: Tree, j: nat, k: nat): (top: Option<nat>)
    requires j < |tree|
    ensures top.Some? ==> top.value < |tree|
  {
    if k == 0 then Some(j)
    else
      var below := Climb(tree, j, k - 1);
      if below.None? then None else Near(tree, below.value)
  }

  /** What the `k`-th child of a node shows. */
  ghost predicate InPart(tree: Tree, i: nat, k: nat, depth: nat, s: Spot)
    requires i < |tree| && k < |Kids(tree, i)|
  {
    s in AtAndBelow(tree, Kids(tree, i)[k], depth)
  }

  lemma InEither(a: seq<Spot>, b: seq<Spot>, s: Spot)
    ensures s in a + b <==> s in a || s in b
  {
  }

  lemma OnePartMore(tree: Tree, i: nat, n: nat, depth: nat, s: Spot)
    requires i < |tree| && n < |Kids(tree, i)|
    ensures s in BelowFirst(tree, i, n + 1, depth)
            <==> s in BelowFirst(tree, i, n, depth) || InPart(tree, i, n, depth, s)
  {
    InEither(BelowFirst(tree, i, n, depth), AtAndBelow(tree, Kids(tree, i)[n], depth), s);
  }

  lemma {:induction false} InTheFirst(tree: Tree, i: nat, n: nat, depth: nat, s: Spot)
    requires i < |tree| && n <= |Kids(tree, i)|
    ensures s in BelowFirst(tree, i, n, depth) <==> exists k: nat :: k < n && InPart(tree, i, k, depth, s)
  {
    if n > 0 {
      InTheFirst(tree, i, n - 1, depth, s);
      OnePartMore(tree, i, n - 1, depth, s);
    }
  }

  /** What a child shows is shown. */
  lemma ShownByAKid(tree: Tree, i: nat, c: nat, depth: nat, s: Spot)
    requires i < |tree| && c in Kids(tree, i) && s in AtAndBelow(tree, c, depth)
    ensures s in Below(tree, i, depth)
  {
    var kids := Kids(tree, i);
    InTheFirst(tree, i, |kids|, depth, s);
    var k :| 0 <= k < |kids| && kids[k] == c;
    assert InPart(tree, i, k, depth, s);
  }

  // ---------------------------------------------------------------------------------------------
  // Ids that lead to one node
  // ---------------------------------------------------------------------------------------------

  /** A pre-order from a parentless root. */
  ghost predicate Rooted(tree: Tree) {
    PreOrder(tree, 1) && (tree != [] ==> tree[0].parent.None?)
  }

  /** No two nodes share an id that some node names as its parent's. */
  ghost predicate ParentsAreUnique(tree: Tree) {
    forall a, b, c :: 0 <= a < b < |tree| && 0 <= c < |tree| && tree[c].parent == Some(tree[a].id) ==>
      tree[a].id != tree[b].id
  }

  /** Then the table of children lists under an id exactly the nodes that hang beneath the node with that id. */
  lemma KidsHangBeneath(tree: Tree, c: nat, i: nat)
    requires Rooted(tree) && ParentsAreUnique(tree) && i < |tree| && c < |tree|
    ensures c in Kids(tree, i) <==> Near(tree, c) == Some(i)
  {
    KidsAreTheChildren(tree, tree[i].id);
    if tree[c].parent == Some(tree[i].id) {
      assert Continues(tree, c);
    }
  }

  // ---------------------------------------------------------------------------------------------
  // An expansion shows the subtree
  // ---------------------------------------------------------------------------------------------

  /** A node is shown beneath another exactly when one of that one's children shows it. */
  lemma ThroughAChild(tree: Tree, i: nat, depth: nat, s: Spot)
    requires Rooted(tree) && ParentsAreUnique(tree) && i < |tree|
    ensures s in Below(tree, i, depth) <==>
      exists c: nat :: c < |tree| && Near(tree, c) == Some(i) && s in AtAndBelow(tree, c, depth)
  {
    var kids := Kids(tree, i);
    InTheFirst(tree, i, |kids|, depth, s);
    if s in Below(tree, i, depth) {
      var k: nat :| k < |kids| && InPart(tree, i, k, depth, s);
      assert kids[k] in kids;
      KidsHangBeneath(tree, kids[k], i);
    }
    if c: nat :| c < |tree| && Near(tree, c) == Some(i) && s in AtAndBelow(tree, c, depth) {
      KidsHangBeneath(tree, c, i);
      ShownByAKid(tree, i, c, depth, s);
    }
  }

  /** An expansion may show exactly the nodes that stand beneath the expanded node within the depth limit, each at its
      own level. */
  ghost predicate ShowsTheSubtree(tree: Tree, i: nat, depth: nat)
    requires i < |tree|
  {
    forall j: nat, e: nat :: j < |tree| ==> ShowsItsLevel(tree, i, depth, j, e)
  }

  ghost predicate ShowsItsLevel(tree: Tree, i: nat, depth: nat, j: nat, e: nat)
    requires i < |tree| && j < |tree|
  {
    SpotOf(tree, j, e) in Below(tree, i, depth) <==> 1 <= e <= depth && Climb(tree, j, depth - e + 1) == Some(i)
  }

  lemma {:induction false} BelowIsTheSubtree(tree: Tree, i: nat, depth: nat, j: nat, e: nat)
    requires Rooted(tree) && ParentsAreUnique(tree) && i < |tree| && j < |tree| && depth >= 1
    ensures ShowsItsLevel(tree, i, depth, j, e)
    decreases depth, 1
  {
    ThroughAChild(tree, i, depth, SpotOf(tree, j, e));
    forall c: nat | c < |tree|
      ensures SpotOf(tree, j, e) in AtAndBelow(tree, c, depth) <==>
        1 <= e <= depth && Climb(tree, j, depth - e) == Some(c)
    {
      HeadOrBelow(tree, c, depth, j, e);
      HereOrDeeper(tree, c, depth, j, e);
    }
  }

  lemma {:induction false} HereOrDeeper(tree: Tree, c: nat, depth: nat, j: nat, e: nat)
    requires Rooted(tree) && ParentsAreUnique(tree) && c < |tree| && j < |tree| && depth >= 1
    ensures (j == c && e == depth) || (depth > 1 && SpotOf(tree, j, e) in Below(tree, c, depth - 1)) <==>
      1 <= e <= depth && Climb(tree, j, depth - e) == Some(c)
    decreases depth, 0
  {
    if depth > 1 {
      BelowIsTheSubtree(tree, c, depth - 1, j, e);
      LevelsShown(tree, c, depth - 1, j, e);
    }
    if e == depth {
      NoStep(tree, j);
    }
  }

  lemma NoStep(tree: Tree, j: nat)
    requires j < |tree|
    ensures Climb(tree, j, 0) == Some(j)
  {
  }

  lemma LevelsShown(tree: Tree, c: nat, depth: nat, j: nat, e: nat)
    requires c < |tree| && j < |tree| && ShowsItsLevel(tree, c, depth, j, e)
    ensures SpotOf(tree, j, e) in Below(tree, c, depth)
            <==> 1 <= e <= depth && Climb(tree, j, depth + 1 - e) == Some(c)
  {
  }

  lemma HeadOrBelow(tree: Tree, c: nat, depth: nat, j: nat, e: nat)
    requires c < |tree| && j < |tree|
    ensures SpotOf(tree, j, e) in AtAndBelow(tree, c, depth) <==>
      (j == c && e == depth) || (depth > 1 && SpotOf(tree, j, e) in Below(tree, c, depth - 1))
  {
  }

  /** A node that names an id is shown beneath every node that has it. */
  lemma KidIsShown(tree: Tree, i: nat, c: nat, depth: nat)
    requires i < |tree| && c < |tree| && tree[c].parent == Some(tree[i].id)
    ensures SpotOf(tree, c, depth) in Below(tree, i, depth)
  {
    KidsAreTheChildren(tree, tree[i].id);
    ShownByAKid(tree, i, c, depth, SpotOf(tree, c, depth));
  }

  /** So where an expansion shows the subtree, it hangs there. */
  lemma HangsWhereShown(tree: Tree, i: nat, c: nat)
    requires i < |tree| && c < |tree| && tree[c].parent == Some(tree[i].id) && ShowsTheSubtree(tree, i, 1)
    ensures Near(tree, c) == Some(i)
  {
    KidIsShown(tree, i, c, 1);
    assert ShowsItsLevel(tree, i, 1, c, 1);
    assert Climb(tree, c, 0) == Some(c);
  }

  /** Two nodes with an id that a third one names: it hangs beneath one of them only. */
  lemma NotBeneathBoth(tree: Tree, a: nat, b: nat, c: nat)
    requires a < b < |tree| && c < |tree| && tree[c].parent == Some(tree[a].id) && tree[a].id == tree[b].id
    ensures !(ShowsTheSubtree(tree, a, 1) && ShowsTheSubtree(tree, b, 1))
  {
    if ShowsTheSubtree(tree, a, 1) && ShowsTheSubtree(tree, b, 1) {
      HangsWhereShown(tree, a, c);
      HangsWhereShown(tree, b, c);
    }
  }

  /** Every expansion of a pre-order shows exactly the subtree, if and only if no two nodes share an id that some node
      names as its parent's. */
  lemma SubtreesExactlyWhenParentsAreUnique(tree: Tree)
    requires Rooted(tree)
    ensures (forall i: nat, depth: nat :: i < |tree| && depth >= 1 ==> ShowsTheSubtree(tree, i, depth))
            <==> ParentsAreUnique(tree)
  {
    if ParentsAreUnique(tree) {
      forall i: nat, depth: nat | i < |tree| && depth >= 1 ensures ShowsTheSubtree(tree, i, depth) {
        forall j: nat, e: nat | j < |tree| ensures ShowsItsLevel(tree, i, depth, j, e) {
          BelowIsTheSubtree(tree, i, depth, j, e);
        }
      }
    } else {
      var a, b, c :| 0 <= a < b < |tree| && 0 <= c < |tree| && tree[c].parent == Some(tree[a].id)
                     && tree[a].id == tree[b].id;
      NotBeneathBoth(tree, a, b, c);
    }
  }

  // ---------------------------------------------------------------------------------------------
  // Document order
  // ---------------------------------------------------------------------------------------------

  /** The nodes of some spots come in document order, without repeats. */
  ghost predicate Ascends(spots: seq<Spot>) {
    forall a, b :: 0 <= a < b < |spots| ==> spots[a].node < spots[b].node
  }

  /** The nodes of a stretch of a subtree: strictly ascending, from `low` on, short of `high`, all beneath `c`. */
  ghost predicate Stretch(tree: Tree, spots: seq<Spot>, c: nat, low: nat, high: nat) {
    && (forall a :: 0 <= a < |spots| ==>
          low <= spots[a].node < high && spots[a].node < |tree| && Beneath(tree, spots[a].node, c))
    && Ascends(spots)
  }

  /** Nothing beneath a child reaches its next sibling. */
  lemma SubtreesEndBeforeTheNext(tree: Tree, i: nat, c: nat, next: nat, x: nat)
    requires Rooted(tree) && i < |tree| && x < |tree| && c < next < |tree|
    requires Near(tree, c) == Some(i) && Near(tree, next) == Some(i) && Beneath(tree, x, c)
    ensures x < next
  {
    if next <= x {
      SubtreesAreContiguous(tree, x, c, next);
      NotAbove(tree, i, c);
    }
  }

  lemma {:induction false} BelowFirstAscends(tree: Tree, i: nat, n: nat, depth: nat)
    requires Rooted(tree) && ParentsAreUnique(tree) && i < |tree| && n <= |Kids(tree, i)|
    ensures Stretch(tree, BelowFirst(tree, i, n, depth), i, i + 1,
                    if n < |Kids(tree, i)| then Kids(tree, i)[n] else |tree|)
    decreases depth, 1, n
  {
    var kids := Kids(tree, i);
    KidsAreTheChildren(tree, tree[i].id);
    if n > 0 {
      var c := kids[n - 1];
      BelowFirstAscends(tree, i, n - 1, depth);
      AtAndBelowAscends(tree, c, depth);
      KidsHangBeneath(tree, c, i);
      OneStretchMore(tree, BelowFirst(tree, i, n - 1, depth), AtAndBelow(tree, c, depth), i, c);
      if n < |kids| {
        KidsHangBeneath(tree, kids[n], i);
        forall a | 0 <= a < |BelowFirst(tree, i, n, depth)| ensures BelowFirst(tree, i, n, depth)[a].node < kids[n] {
          BeforeTheNext(tree, BelowFirst(tree, i, n - 1, depth), AtAndBelow(tree, c, depth), i, c, kids[n], a);
        }
      }
    }
  }

  lemma OneStretchMore(tree: Tree, done: seq<Spot>, more: seq<Spot>, i: nat, c: nat)
    requires i < c < |tree| && Near(tree, c) == Some(i)
    requires Stretch(tree, done, i, i + 1, c) && Stretch(tree, more, c, c, |tree|)
    ensures Stretch(tree, done + more, i, i + 1, |tree|)
  {
    assert Beneath(tree, i, i) && Beneath(tree, c, i);
    forall a | 0 <= a < |more| ensures Beneath(tree, more[a].node, i) {
      BeneathIsTransitive(tree, more[a].node, c, i);
    }
  }

  lemma BeforeTheNext(tree: Tree, done: seq<Spot>, more: seq<Spot>, i: nat, c: nat, next: nat, a: nat)
    requires Rooted(tree) && c < next < |tree| && a < |done + more| && i < |tree|
    requires Near(tree, c) == Some(i) && Near(tree, next) == Some(i)
    requires Stretch(tree, done, i, i + 1, c) && Stretch(tree, more, c, c, |tree|)
    ensures (done + more)[a].node < next
  {
    if a >= |done| {
      SubtreesEndBeforeTheNext(tree, i, c, next, more[a - |done|].node);
    }
  }

  lemma HeadOfAStretch(tree: Tree, head: Spot, rest: seq<Spot>, c: nat)
    requires c < |tree| && head.node == c && Stretch(tree, rest, c, c + 1, |tree|)
    ensures Stretch(tree, [head] + rest, c, c, |tree|)
  {
    assert Beneath(tree, c, c);
  }

  lemma {:induction false} AtAndBelowAscends(tree: Tree, c: nat, depth: nat)
    requires Rooted(tree) && ParentsAreUnique(tree) && c < |tree|
    ensures Stretch(tree, AtAndBelow(tree, c, depth), c, c, |tree|)
    decreases depth, 0, 0
  {
    if depth > 1 {
      BelowAscends(tree, c, depth - 1);
      HeadOfAStretch(tree, SpotOf(tree, c, depth), Below(tree, c, depth - 1), c);
    } else {
      HeadOfAStretch(tree, SpotOf(tree, c, depth), [], c);
    }
  }

  /** What an expansion may show comes in document order: strictly ascending in the tree, so without repeats, after
      the expanded node and all of it beneath. */
  lemma {:induction false} BelowAscends(tree: Tree, i: nat, depth: nat)
    requires Rooted(tree) && ParentsAreUnique(tree) && i < |tree|
    ensures Stretch(tree, Below(tree, i, depth), i, i + 1, |tree|)
    decreases depth, 2, 0
  {
    BelowFirstAscends(tree, i, |Kids(tree, i)|, depth);
  }

  // ---------------------------------------------------------------------------------------------
  // And only then
  // ---------------------------------------------------------------------------------------------

  /** A node is listed, at whatever level. */
  ghost predicate Lists(spots: seq<Spot>, x: nat) {
    exists s :: s in spots && s.node == x
  }

  /** Every expansion of a tree is in document order. */
  ghost predicate AllAscend(tree: Tree) {
    forall i: nat, depth: nat :: i < |tree| ==> AscendsFrom(tree, i, depth)
  }

  ghost predicate AscendsFrom(tree: Tree, i: nat, depth: nat)
    requires i < |tree|
  {
    Ascends(Below(tree, i, depth))
  }

  /** Whatever names a node's id is listed beneath every node that one stands beneath, given enough levels. */
  lemma {:induction false} ListedBeneath(tree: Tree, x: nat, o: nat, c: nat, depth: nat)
    requires x < |tree| && o < |tree| && Beneath(tree, o, x) && c in Kids(tree, o) && depth > o - x
    ensures Lists(Below(tree, x, depth), c)
    decreases depth
  {
    NotAbove(tree, o, x);
    KidsAreTheChildren(tree, tree[o].id);
    if o == x {
      KidIsShown(tree, x, c, depth);
    } else {
      var u := BeneathAChild(tree, o, x);
      NotAbove(tree, o, u);
      ListedBeneath(tree, u, o, c, depth - 1);
      var s :| s in Below(tree, u, depth - 1) && s.node == c;
      assert s in AtAndBelow(tree, u, depth);
      KidsAreTheChildren(tree, tree[x].id);
      ShownByAKid(tree, x, u, depth, s);
    }
  }

  /** One child's part of an expansion. */
  lemma PartOf(tree: Tree, i: nat, n: nat, depth: nat) returns (rest: seq<Spot>)
    requires i < |tree| && n < |Kids(tree, i)|
    ensures Below(tree, i, depth) == BelowFirst(tree, i, n, depth) + AtAndBelow(tree, Kids(tree, i)[n], depth) + rest
  {
    rest := RestOfBelow(tree, i, n + 1, |Kids(tree, i)|, depth);
  }

  lemma NotTwice(front: seq<Spot>, part: seq<Spot>, rest: seq<Spot>, x: nat)
    requires Lists(front, x) && Lists(part, x)
    ensures !Ascends(front + part + rest)
  {
    var all := front + part + rest;
    var s :| s in front && s.node == x;
    var u :| u in part && u.node == x;
    var a :| 0 <= a < |front| && front[a] == s;
    var b :| 0 <= b < |part| && part[b] == u;
    assert all[a] == s && all[|front| + b] == u;
  }

  lemma PartsAscend(front: seq<Spot>, part: seq<Spot>, rest: seq<Spot>)
    requires Ascends(front + part + rest)
    ensures Ascends(part)
  {
    var all := front + part + rest;
    forall a, b | 0 <= a < b < |part| ensures part[a].node < part[b].node {
      assert all[|front| + a] == part[a] && all[|front| + b] == part[b];
    }
  }

  /** In an expansion in document order, no node is listed under two children. */
  lemma ListedOnce(tree: Tree, i: nat, m: nat, n: nat, depth: nat, x: nat)
    requires i < |tree| && m < |Kids(tree, i)| && n < |Kids(tree, i)| && m != n && AscendsFrom(tree, i, depth)
    requires Lists(AtAndBelow(tree, Kids(tree, i)[m], depth), x)
    ensures !Lists(AtAndBelow(tree, Kids(tree, i)[n], depth), x)
  {
    var kids := Kids(tree, i);
    if Lists(AtAndBelow(tree, kids[n], depth), x) {
      var low, high := if m < n then m else n, if m < n then n else m;
      var s :| s in AtAndBelow(tree, kids[low], depth) && s.node == x;
      assert InPart(tree, i, low, depth, s);
      InTheFirst(tree, i, high, depth, s);
      var rest := PartOf(tree, i, high, depth);
      NotTwice(BelowFirst(tree, i, high, depth), AtAndBelow(tree, kids[high], depth), rest, x);
    }
  }

  lemma HeadIsNotBelow(head: Spot, below: seq<Spot>)
    requires Ascends([head] + below)
    ensures !Lists(below, head.node)
  {
    var all := [head] + below;
    forall b | 0 <= b < |below| ensures head.node < below[b].node {
      assert all[0] == head && all[b + 1] == below[b];
    }
  }

  /** Nor is a child listed again beneath itself. */
  lemma NotBeneathItself(tree: Tree, i: nat, n: nat, depth: nat)
    requires i < |tree| && n < |Kids(tree, i)| && AscendsFrom(tree, i, depth) && depth > 1
    ensures !Lists(Below(tree, Kids(tree, i)[n], depth - 1), Kids(tree, i)[n])
  {
    var c := Kids(tree, i)[n];
    var rest := PartOf(tree, i, n, depth);
    PartsAscend(BelowFirst(tree, i, n, depth), AtAndBelow(tree, c, depth), rest);
    HeadIsNotBelow(SpotOf(tree, c, depth), Below(tree, c, depth - 1));
  }

  lemma ListedInPart(tree: Tree, u: nat, o: nat, c: nat)
    requires u < |tree| && o < |tree| && Beneath(tree, o, u) && c in Kids(tree, o)
    ensures Lists(Below(tree, u, |tree|), c) && Lists(AtAndBelow(tree, u, |tree| + 1), c)
  {
    NotAbove(tree, o, u);
    ListedBeneath(tree, u, o, c, |tree|);
    AtOrBelow(tree, u, |tree| + 1, c);
  }

  lemma PlaceOf(tree: Tree, i: nat, c: nat) returns (n: nat)
    requires i < |tree| && c < |tree| && Near(tree, c) == Some(i)
    ensures n < |Kids(tree, i)| && Kids(tree, i)[n] == c
  {
    KidsAreTheChildren(tree, tree[i].id);
    n :| 0 <= n < |Kids(tree, i)| && Kids(tree, i)[n] == c;
  }

  /** What is listed under one child is listed under no other. */
  lemma NotUnderBoth(tree: Tree, i: nat, u: nat, v: nat, c: nat, depth: nat)
    requires i < |tree| && AscendsFrom(tree, i, depth) && u < |tree| && v < |tree| && u != v
    requires Near(tree, u) == Some(i) && Near(tree, v) == Some(i) && Lists(AtAndBelow(tree, u, depth), c)
    ensures !Lists(AtAndBelow(tree, v, depth), c)
  {
    var m := PlaceOf(tree, i, u);
    var n := PlaceOf(tree, i, v);
    ListedOnce(tree, i, m, n, depth, c);
  }

  lemma AtOrBelow(tree: Tree, u: nat, depth: nat, c: nat)
    requires u < |tree| && depth > 1
    ensures Lists(AtAndBelow(tree, u, depth), u)
    ensures Lists(Below(tree, u, depth - 1), c) ==> Lists(AtAndBelow(tree, u, depth), c)
  {
    assert SpotOf(tree, u, depth) in AtAndBelow(tree, u, depth);
    if s :| s in Below(tree, u, depth - 1) && s.node == c {
      assert s in AtAndBelow(tree, u, depth);
    }
  }

  /** A child is listed beneath no child. */
  lemma NoChildBelow(tree: Tree, i: nat, u: nat, c: nat, depth: nat)
    requires i < |tree| && AscendsFrom(tree, i, depth) && u < |tree| && depth > 1
    requires Near(tree, u) == Some(i) && c in Kids(tree, i)
    ensures !Lists(Below(tree, u, depth - 1), c)
  {
    var n := PlaceOf(tree, i, u);
    var m :| 0 <= m < |Kids(tree, i)| && Kids(tree, i)[m] == c;
    AtOrBelow(tree, u, depth, c);
    AtOrBelow(tree, c, depth, c);
    if m == n {
      NotBeneathItself(tree, i, n, depth);
    } else {
      ListedOnce(tree, i, m, n, depth, c);
    }
  }

  /** A node listed directly beneath one is not listed beneath another node further down. */
  lemma NotFurtherDown(tree: Tree, i: nat, o: nat, c: nat)
    requires AllAscend(tree) && i < |tree| && o < |tree| && Beneath(tree, o, i) && o != i && c in Kids(tree, i)
    ensures c !in Kids(tree, o)
  {
    var u := BeneathAChild(tree, o, i);
    assert AscendsFrom(tree, i, |tree| + 1);
    NoChildBelow(tree, i, u, c, |tree| + 1);
    if c in Kids(tree, o) {
      ListedInPart(tree, u, o, c);
    }
  }

  /** So, beneath any node, no two nodes list the same child. */
  lemma {:induction false} OnlyOneParent(tree: Tree, i: nat, p: nat, o: nat, c: nat)
    requires AllAscend(tree) && i < |tree| && p < |tree| && o < |tree| && p != o
    requires Beneath(tree, p, i) && Beneath(tree, o, i)
    ensures !(c in Kids(tree, p) && c in Kids(tree, o))
    decreases |tree| - i
  {
    if c in Kids(tree, p) && c in Kids(tree, o) {
      if p == i {
        NotFurtherDown(tree, i, o, c);
      } else if o == i {
        NotFurtherDown(tree, i, p, c);
      } else {
        var u := BeneathAChild(tree, p, i);
        var v := BeneathAChild(tree, o, i);
        if u == v {
          OnlyOneParent(tree, u, p, o, c);
        } else {
          NotUnderTwo(tree, i, u, v, p, o, c);
        }
      }
    }
  }

  lemma NotUnderTwo(tree: Tree, i: nat, u: nat, v: nat, p: nat, o: nat, c: nat)
    requires i < |tree| && AscendsFrom(tree, i, |tree| + 1) && u < |tree| && v < |tree| && u != v
    requires Near(tree, u) == Some(i) && Near(tree, v) == Some(i)
    requires p < |tree| && o < |tree| && Beneath(tree, p, u) && Beneath(tree, o, v) && c in Kids(tree, p)
    ensures c !in Kids(tree, o)
  {
    ListedInPart(tree, u, p, c);
    NotUnderBoth(tree, i, u, v, c, |tree| + 1);
    if c in Kids(tree, o) {
      ListedInPart(tree, v, o, c);
    }
  }

  lemma {:induction false} BeneathTheRoot(tree: Tree, j: nat)
    requires Rooted(tree) && j < |tree|
    ensures Beneath(tree, j, 0)
  {
    if j > 0 {
      assert Continues(tree, j);
      BeneathTheRoot(tree, Near(tree, j).value);
    }
  }

  /** Every expansion of a pre-order is in document order, without repeats, if and only if no two nodes share an id that
      some node names as its parent's. */
  lemma DocumentOrderExactlyWhenParentsAreUnique(tree: Tree)
    requires Rooted(tree)
    ensures AllAscend(tree) <==> ParentsAreUnique(tree)
  {
    if ParentsAreUnique(tree) {
      forall i: nat, depth: nat | i < |tree| ensures AscendsFrom(tree, i, depth) {
        BelowAscends(tree, i, depth);
      }
    } else if AllAscend(tree) {
      var a, b, c :| 0 <= a < b < |tree| && 0 <= c < |tree| && tree[c].parent == Some(tree[a].id)
                     && tree[a].id == tree[b].id;
      BeneathTheRoot(tree, a);
      BeneathTheRoot(tree, b);
      KidsAreTheChildren(tree, tree[a].id);
      OnlyOneParent(tree, 0, a, b, c);
      assert false;
    }
  }

  /** What browsing a device may show, at every node and depth: the node's subtree, and in document order, each if and
      only if no two nodes of its projection share an id that some node names as its parent's. */
  lemma ExpansionsAreRightExactlyWhen(device: Elem)
    requires Named(device, "")
    ensures var tree := TreeOf(device);
            && (AllAscend(tree) <==> ParentsAreUnique(tree))
            && ((forall i: nat, depth: nat :: i < |tree| && depth >= 1 ==> ShowsTheSubtree(tree, i, depth))
                <==> ParentsAreUnique(tree))
  {
    DevicesArePreOrders(device);
    DocumentOrderExactlyWhenParentsAreUnique(TreeOf(device));
    SubtreesExactlyWhenParentsAreUnique(TreeOf(device));
  }

  // ---------------------------------------------------------------------------------------------
  // Twins
  // ---------------------------------------------------------------------------------------------

  lemma TwinKids()
    ensures Kids(TWIN_TREE, 0) == [1, 3] && Kids(TWIN_TREE, 1) == [2] && Kids(TWIN_TREE, 3) == [2]
  {
    assert TWIN_ID != ROOT_NODE_ID;
    KidsAreTheChildren(TWIN_TREE, ROOT_NODE_ID);
    OnlyMembers(KidsOf(TWIN_TREE, ROOT_NODE_ID), 1, 3);
    OnlyKid(TWIN_TREE, TWIN_ID, 2);
  }

  lemma OnlyMembers(kids: seq<nat>, a: nat, b: nat)
    requires a < b && forall k: nat :: k in kids <==> k == a || k == b
    requires forall i, j :: 0 <= i < j < |kids| ==> kids[i] < kids[j]
    ensures kids == [a, b]
  {
    assert a in kids && b in kids;
    assert kids[0] in kids && kids[0] == a;
    assert |kids| > 1 && kids[1] in kids && kids[1] == b;
    assert kids[|kids| - 1] in kids;
  }

  /** Two unnamed sibling components of one element name: expanding the device shows the one data item under both, so
      twice, and out of order. */
  lemma TwinsAreListedTwice()
    ensures TreeOf(TWIN_DEVICE) == TWIN_TREE && Nodes(Below(TWIN_TREE, 0, 2)) == [1, 2, 3, 2]
  {
    TwinsProject();
    TwinKids();
    var tree := TWIN_TREE;
    OneMoreBelow(tree, 1, 0, 1);
    OneMoreBelow(tree, 3, 0, 1);
    assert Below(tree, 1, 1) == [SpotOf(tree, 2, 1)] == Below(tree, 3, 1);
    OneMoreBelow(tree, 0, 0, 2);
    OneMoreBelow(tree, 0, 1, 2);
    assert Below(tree, 0, 2) == BelowFirst(tree, 0, 2, 2);
    assert BelowFirst(tree, 0, 1, 2) == [SpotOf(tree, 1, 2), SpotOf(tree, 2, 1)];
    assert Below(tree, 0, 2) == [SpotOf(tree, 1, 2), SpotOf(tree, 2, 1), SpotOf(tree, 3, 2), SpotOf(tree, 2, 1)];
  }

  // ---------------------------------------------------------------------------------------------
  // The budgeted expansion
  // ---------------------------------------------------------------------------------------------

  /** One reference as replied. A `Deferred` one carries no `refs`, so the console asks again when the node
      is opened; one with empty `refs` says that the node has no children. */
  datatype Ref =
    | Deferred(node: nat, configured: bool)
    | Expanded(node: nat, configured: bool, refs: seq<Ref>)

  /** The nodes of a reply, in pre-order. */
  function Listed(refs: seq<Ref>): seq<nat> {
    if refs == [] then [] else Listed(refs[..|refs| - 1]) + ListedOne(refs[|refs| - 1])
  }

  function ListedOne(r: Ref): seq<nat> {
    [r.node] + if r.Expanded? then Listed(r.refs) else []
  }

  /** Every reference carries its node's flag, is deferred exactly when its children lie beyond the depth
      limit, and its own references are likewise. */
  predicate Faithful(tree: Tree, flags: seq<bool>, refs: seq<Ref>, depth: nat) {
    refs != [] ==>
      && Faithful(tree, flags, refs[..|refs| - 1], depth)
      && FaithfulOne(tree, flags, refs[|refs| - 1], depth)
  }

  predicate FaithfulOne(tree: Tree, flags: seq<bool>, r: Ref, depth: nat) {
    && r.node < |tree| && r.node < |flags| && r.configured == flags[r.node]
    && (r.Deferred? <==> Kids(tree, r.node) != [] && depth <= 1)
    && (r.Expanded? ==> Faithful(tree, flags, r.refs, if depth > 0 then depth - 1 else 0))
  }

  /** Somewhere a node with children says it has none. */
  predicate Misreports(tree: Tree, refs: seq<Ref>) {
    refs != [] && (Misreports(tree, refs[..|refs| - 1]) || MisreportsOne(tree, refs[|refs| - 1]))
  }

  predicate MisreportsOne(tree: Tree, r: Ref) {
    && r.node < |tree| && r.Expanded?
    && ((Kids(tree, r.node) != [] && r.refs == []) || Misreports(tree, r.refs))
  }

  /** What faithful references say, one by one: each carries the flag of its node; it comes without references
      exactly when the node has children beyond the depth limit; and those it comes with are faithful one level
      down. */
  lemma {:induction false} FaithfulSays(tree: Tree, flags: seq<bool>, refs: seq<Ref>, depth: nat, i: nat)
    requires Faithful(tree, flags, refs, depth) && i < |refs|
    ensures refs[i].node < |tree| && refs[i].node < |flags| && refs[i].configured == flags[refs[i].node]
    ensures refs[i].Deferred? <==> Kids(tree, refs[i].node) != [] && depth < 2
    ensures refs[i].Expanded? && depth > 0 ==> Faithful(tree, flags, refs[i].refs, depth - 1)
  {
    if i < |refs| - 1 {
      FaithfulSays(tree, flags, refs[..|refs| - 1], depth, i);
    }
  }

  /** A node that says it has no children although it has some, somewhere among the references. */
  lemma {:induction false} MisreportsExactlyWhen(tree: Tree, refs: seq<Ref>)
    ensures Misreports(tree, refs) <==> exists i :: 0 <= i < |refs| && MisreportsOne(tree, refs[i])
  {
    if refs != [] {
      MisreportsExactlyWhen(tree, refs[..|refs| - 1]);
    }
  }

  lemma MisreportsHere(tree: Tree, node: nat, configured: bool, refs: seq<Ref>)
    requires node < |tree|
    ensures MisreportsOne(tree, Expanded(node, configured, refs)) <==>
              (refs == [] && exists c :: c in Kids(tree, node)) || Misreports(tree, refs)
    ensures !MisreportsOne(tree, Deferred(node, configured))
  {
    if Kids(tree, node) != [] {
      assert Kids(tree, node)[0] in Kids(tree, node);
    }
  }

  function Nodes(spots: seq<Spot>): seq<nat> {
    seq(|spots|, k requires 0 <= k < |spots| => spots[k].node)
  }

  /** As many as the budget allows. */
  function Within(spots: seq<Spot>, budget: nat): seq<Spot> {
    if |spots| <= budget then spots else spots[..budget]
  }

  /** The budget ends right after a node whose children would have come next. */
  predicate CutsBeforeAChild(spots: seq<Spot>, budget: nat) {
    0 < budget < |spots| && spots[budget - 1].opens
  }

  lemma {:induction false} SomethingBelow(tree: Tree, i: nat, depth: nat)
    requires i < |tree| && Kids(tree, i) != []
    ensures Below(tree, i, depth) != []
  {
    var n := |Kids(tree, i)|;
    assert BelowFirst(tree, i, n, depth) != [];
  }

  /** The last node shown never has children left to show. */
  lemma {:induction false} TheLastIsClosed(tree: Tree, i: nat, n: nat, depth: nat)
    requires i < |tree| && n <= |Kids(tree, i)|
    ensures var spots := BelowFirst(tree, i, n, depth); spots != [] ==> !spots[|spots| - 1].opens
    decreases depth, n
  {
    if n > 0 {
      var c := Kids(tree, i)[n - 1];
      assert BelowFirst(tree, i, n, depth) == BelowFirst(tree, i, n - 1, depth) + AtAndBelow(tree, c, depth);
      if depth > 1 && Kids(tree, c) != [] {
        SomethingBelow(tree, c, depth - 1);
        TheLastIsClosed(tree, c, |Kids(tree, c)|, depth - 1);
      } else if depth > 1 {
        assert Below(tree, c, depth - 1) == [];
      }
    }
  }

  /** One more child, drawing one from the budget for itself and the rest for what lies beneath it. */
  lemma OneChildMore(done: seq<Spot>, s: Spot, nested: seq<Spot>, budget: nat, listed: seq<nat>, one: seq<nat>,
                     left: nat)
    requires left > 0 && left == budget - |Within(done, budget)| && (s.opens <==> nested != [])
    requires listed == Nodes(Within(done, budget)) && one == [s.node] + Nodes(Within(nested, left - 1))
    ensures var all := done + ([s] + nested);
            && Nodes(Within(all, budget)) == listed + one
            && |done| < budget && !CutsBeforeAChild(done, budget)
            && (|all| > budget <==> |nested| > left - 1)
            && |Within(all, budget)| == |done| + 1 + |Within(nested, left - 1)|
            && (CutsBeforeAChild(all, budget) <==> (s.opens && left == 1) || CutsBeforeAChild(nested, left - 1))
  {
    var all := done + ([s] + nested);
    assert |done| < budget;
    assert Within(all, budget) == done + ([s] + Within(nested, left - 1));
    if budget < |all| {
      assert all[budget - 1] == if left == 1 then s else nested[left - 2];
    }
  }

  /** When the budget is used up, further children change nothing but the verdict that there was more. */
  lemma NothingLeft(done: seq<Spot>, more: seq<Spot>, budget: nat)
    requires budget <= |done|
    requires done != [] ==> !done[|done| - 1].opens
    ensures Within(done + more, budget) == Within(done, budget)
    ensures CutsBeforeAChild(done + more, budget) <==> CutsBeforeAChild(done, budget)
  {
  }

  /** `BelowFirst` grows by whole subtrees. */
  lemma {:induction false} RestOfBelow(tree: Tree, i: nat, n: nat, m: nat, depth: nat) returns (more: seq<Spot>)
    requires i < |tree| && n <= m <= |Kids(tree, i)|
    ensures BelowFirst(tree, i, m, depth) == BelowFirst(tree, i, n, depth) + more
    ensures n < m ==> more != []
    decreases m
  {
    if n == m {
      more := [];
    } else {
      more := RestOfBelow(tree, i, n, m - 1, depth);
      more := more + AtAndBelow(tree, Kids(tree, i)[m - 1], depth);
    }
  }

  /** References that show, of everything that may be shown, in pre-order, exactly as much as the budget
      allows: the reply says it was cut exactly when there was more, and a node with children is passed off
      as a leaf exactly when the cut falls between it and its first child. */
  ghost predicate Shows(tree: Tree, flags: seq<bool>, spots: seq<Spot>, depth: nat, budget: nat, truncated: bool,
                        out: seq<Ref>, left: nat, cut: bool)
  {
    && Listed(out) == Nodes(Within(spots, budget))
    && left == budget - |Within(spots, budget)|
    && (cut <==> truncated || |spots| > budget)
    && Faithful(tree, flags, out, depth)
    && (Misreports(tree, out) <==> CutsBeforeAChild(spots, budget))
  }

  /** The same of one reference, given what may be shown beneath its node. */
  ghost predicate ShowsOne(tree: Tree, flags: seq<bool>, s: Spot, nested: seq<Spot>, budget: nat, truncated: bool,
                           r: Ref, left: nat, cut: bool)
  {
    && (s.opens <==> nested != [])
    && ListedOne(r) == [s.node] + Nodes(Within(nested, budget))
    && left == budget - |Within(nested, budget)|
    && (cut <==> truncated || |nested| > budget)
    && FaithfulOne(tree, flags, r, s.depth)
    && (MisreportsOne(tree, r) <==> (s.opens && budget == 0) || CutsBeforeAChild(nested, budget))
  }

  lemma ShowsOneMore(tree: Tree, flags: seq<bool>, done: seq<Spot>, s: Spot, nested: seq<Spot>, budget: nat,
                     truncated: bool, out: seq<Ref>, left: nat, cut: bool, r: Ref, left': nat, cut': bool)
    requires Shows(tree, flags, done, s.depth, budget, truncated, out, left, cut) && left > 0
    requires ShowsOne(tree, flags, s, nested, left - 1, cut, r, left', cut')
    ensures Shows(tree, flags, done + ([s] + nested), s.depth, budget, truncated, out + [r], left', cut')
  {
    OneRefMore(tree, flags, out, r, s.depth);
    OneChildMore(done, s, nested, budget, Listed(out), ListedOne(r), left);
  }

  lemma OneRefMore(tree: Tree, flags: seq<bool>, out: seq<Ref>, r: Ref, depth: nat)
    ensures Listed(out + [r]) == Listed(out) + ListedOne(r)
    ensures Faithful(tree, flags, out + [r], depth) <==>
      Faithful(tree, flags, out, depth) && FaithfulOne(tree, flags, r, depth)
    ensures Misreports(tree, out + [r]) <==> Misreports(tree, out) || MisreportsOne(tree, r)
  {
    assert (out + [r])[..|out|] == out;
  }

  lemma ShowsNoMore(tree: Tree, flags: seq<bool>, i: nat, n: nat, depth: nat, budget: nat, truncated: bool,
                    out: seq<Ref>, cut: bool)
    requires i < |tree| && n < |Kids(tree, i)|
    requires Shows(tree, flags, BelowFirst(tree, i, n, depth), depth, budget, truncated, out, 0, cut)
    ensures Shows(tree, flags, Below(tree, i, depth), depth, budget, truncated, out, 0, true)
  {
    var done := BelowFirst(tree, i, n, depth);
    TheLastIsClosed(tree, i, n, depth);
    var more := RestOfBelow(tree, i, n, |Kids(tree, i)|, depth);
    NothingLeft(done, more, budget);
  }

  lemma OneMoreBelow(tree: Tree, i: nat, n: nat, depth: nat)
    requires i < |tree| && n < |Kids(tree, i)|
    ensures BelowFirst(tree, i, n + 1, depth)
            == BelowFirst(tree, i, n, depth)
               + ([SpotOf(tree, Kids(tree, i)[n], depth)] + Nested(tree, Kids(tree, i)[n], depth))
  {
  }

  /** Expand one node. */
  method RefsOf(tree: Tree, flags: seq<bool>, children: map<string, seq<nat>>, index: nat, depth: nat, budget: nat,
                truncated: bool) returns (out: seq<Ref>, left: nat, cut: bool)
    requires index < |tree| == |flags| && Tabulates(children, tree)
    ensures Shows(tree, flags, Below(tree, index, depth), depth, budget, truncated, out, left, cut)
    decreases depth, 2
  {
    out, left, cut := [], budget, truncated;
    if tree[index].id !in children {
      return;
    }
    var kids := children[tree[index].id];
    assert kids == Kids(tree, index);
    for n := 0 to |kids|
      invariant Shows(tree, flags, BelowFirst(tree, index, n, depth), depth, budget, truncated, out, left, cut)
    {
      if left == 0 {
        ShowsNoMore(tree, flags, index, n, depth, budget, truncated, out, cut);
        cut := true;
        return;
      }
      out, left, cut := RefsAndOne(tree, flags, children, index, n, depth, budget, truncated, out, left, cut);
    }
  }

  /** One more child. */
  method RefsAndOne(tree: Tree, flags: seq<bool>, children: map<string, seq<nat>>, index: nat, n: nat, depth: nat,
                    ghost budget: nat, ghost truncated: bool, done: seq<Ref>, before: nat, verdict: bool)
    returns (out: seq<Ref>, left: nat, cut: bool)
    requires index < |tree| == |flags| && Tabulates(children, tree) && n < |Kids(tree, index)| && before > 0
    requires tree[index].id in children
    requires Shows(tree, flags, BelowFirst(tree, index, n, depth), depth, budget, truncated, done, before, verdict)
    ensures Shows(tree, flags, BelowFirst(tree, index, n + 1, depth), depth, budget, truncated, out, left, cut)
    decreases depth, 1
  {
    var child := children[tree[index].id][n];
    var r;
    r, left, cut := RefTo(tree, flags, children, child, depth, before - 1, verdict);
    out := done + [r];
    ShowsOneMore(tree, flags, BelowFirst(tree, index, n, depth), SpotOf(tree, child, depth),
                 Nested(tree, child, depth), budget, truncated, done, before, verdict, r, left, cut);
    OneMoreBelow(tree, index, n, depth);
  }

  /** What may be shown beneath a shown node. */
  function Nested(tree: Tree, c: nat, depth: nat): seq<Spot>
    requires c < |tree|
  {
    if depth > 1 then Below(tree, c, depth - 1) else []
  }

  /** One reference, with its own references when they may be shown. */
  method RefTo(tree: Tree, flags: seq<bool>, children: map<string, seq<nat>>, child: nat, depth: nat, budget: nat,
               truncated: bool) returns (r: Ref, left: nat, cut: bool)
    requires child < |tree| == |flags| && Tabulates(children, tree)
    ensures ShowsOne(tree, flags, SpotOf(tree, child, depth), Nested(tree, child, depth), budget, truncated,
                     r, left, cut)
    decreases depth, 0
  {
    left, cut := budget, truncated;
    assert Kids(tree, child) == [] <==> tree[child].id !in children;
    if tree[child].id !in children {
      assert depth > 1 ==> Below(tree, child, depth - 1) == BelowFirst(tree, child, 0, depth - 1) == [];
      r := Expanded(child, flags[child], []);
    } else if depth > 1 {
      var nested;
      nested, left, cut := RefsOf(tree, flags, children, child, depth - 1, budget, truncated);
      r := Expanded(child, flags[child], nested);
      SomethingBelow(tree, child, depth - 1);
      assert nested != [] ==> Listed(nested) == Listed(nested[..|nested| - 1]) + ListedOne(nested[|nested| - 1]);
    } else {
      r := Deferred(child, flags[child]);
    }
  }

  // ---------------------------------------------------------------------------------------------
  // The hierarchical reply
  // ---------------------------------------------------------------------------------------------

  datatype ExpandError = BadRef | UnknownRef

  datatype Reply = Reply(root: nat, configured: bool, refs: seq<Ref>, depth: nat, truncated: bool)

  function Clamp(n: nat, low: nat, high: nat): (r: nat)
    requires low <= high
    ensures low <= r <= high && (low <= n <= high ==> r == n)
  {
    if n < low then low else if n > high then high else n
  }

  function OrElse(n: Option<nat>, default: nat): nat {
    if n.Some? then n.value else default
  }

  /** The id a browse ref means: `root` is an alias of the device's own. */
  function Meant(ref: string): string {
    if ref == "root" then ROOT_NODE_ID else ref
  }

  method PositionOf(tree: Tree, id: string) returns (at: Option<nat>)
    ensures at.None? <==> forall k :: 0 <= k < |tree| ==> tree[k].id != id
    ensures at.Some? ==>
      at.value < |tree| && tree[at.value].id == id && forall k :: 0 <= k < at.value ==> tree[k].id != id
  {
    for k := 0 to |tree|
      invariant forall j :: 0 <= j < k ==> tree[j].id != id
    {
      if tree[k].id == id {
        return Some(k);
      }
    }
    at := None;
  }

  /** Expand the node a request names: the first with the id it names, the device's own for `root`. A depth from 1
      to 4 and a size from 1 to 1000 are used as given, others brought into range; without any, 1 and 200. */
  method Expand(tree: Tree, flags: seq<bool>, ref: Option<string>, depth: Option<nat>, maxRefs: Option<nat>)
    returns (reply: Result<Reply, ExpandError>)
    requires |tree| == |flags|
    ensures ref.None? || ref.value == "" <==> reply == Err(BadRef)
    ensures ref.Some? && ref.value != "" && ref.value != "root" ==>
      && (reply == Err(UnknownRef) <==> forall k :: 0 <= k < |tree| ==> tree[k].id != ref.value)
      && (reply.Ok? ==> reply.value.root < |tree| && tree[reply.value.root].id == ref.value)
    ensures ref == Some("root") ==>
      && (reply == Err(UnknownRef) <==> forall k :: 0 <= k < |tree| ==> tree[k].id != "mtc:/component/")
      && (reply.Ok? ==> reply.value.root < |tree| && tree[reply.value.root].id == "mtc:/component/")
    ensures reply.Ok? ==>
      var r := reply.value;
      && r.root < |tree| && (forall k :: 0 <= k < r.root ==> tree[k].id != tree[r.root].id)
      && r.configured == flags[r.root]
      && r.depth == (if depth.None? || depth.value < 1 then 1 else if depth.value > 4 then 4 else depth.value)
    ensures reply.Ok? ==>
      var r, below := reply.value, Below(tree, reply.value.root, reply.value.depth);
      var limit := if maxRefs.None? then 200 else if maxRefs.value < 1 then 1 else if maxRefs.value > 1000 then 1000
                   else maxRefs.value;
      && |Listed(r.refs)| == (if |below| < limit then |below| else limit)
      && (forall k :: 0 <= k < |Listed(r.refs)| ==> Listed(r.refs)[k] == below[k].node)
      && (r.truncated <==> |below| > limit)
      && Faithful(tree, flags, r.refs, r.depth)
      && (Misreports(tree, r.refs) <==> CutsBeforeAChild(below, limit))
  {
    if ref.None? || ref.value == "" {
      return Err(BadRef);
    }
    var at := PositionOf(tree, Meant(ref.value));
    if at.None? {
      return Err(UnknownRef);
    }
    var levels := Clamp(OrElse(depth, 1), 1, 4);
    var children := ChildrenByParent(tree);
    var refs, left, cut := RefsOf(tree, flags, children, at.value, levels, Clamp(OrElse(maxRefs, 200), 1, 1000), false);
    reply := Ok(Reply(at.value, flags[at.value], refs, levels, cut));
  }

  // ---------------------------------------------------------------------------------------------
  // A leaf that is none
  // ---------------------------------------------------------------------------------------------

  const ONE_AXIS := Elem("Device", None, [], [Elem("Linear", None, [Probe.DataItem(Some("x"), true)], [])])

  lemma OneAxisProjects()
    ensures TreeOf(ONE_AXIS) == [Node(ROOT_NODE_ID, None), Node(ComponentId("Linear"), Some(ROOT_NODE_ID)),
                                 Node(ITEM_PREFIX + "x", Some(ComponentId("Linear")))]
  {
    var axis, id := ONE_AXIS.children[0], ComponentId("Linear");
    assert ItemNodes(axis, 1, id) == ItemNodes(axis, 0, id) + [Node(ITEM_PREFIX + "x", Some(id))];
    assert Subtree(axis, "Linear", id) == [Node(ITEM_PREFIX + "x", Some(id))];
    assert ComponentTree(axis, "", ROOT_NODE_ID) == [Node(id, Some(ROOT_NODE_ID)), Node(ITEM_PREFIX + "x", Some(id))];
    assert ComponentNodes(ONE_AXIS, 1, "", ROOT_NODE_ID) == ComponentTree(axis, "", ROOT_NODE_ID);
  }

  lemma OneAxisKids()
    ensures Kids(TreeOf(ONE_AXIS), 0) == [1] && Kids(TreeOf(ONE_AXIS), 1) == [2]
  {
    OneAxisProjects();
    var tree := TreeOf(ONE_AXIS);
    assert ComponentId("Linear") != ROOT_NODE_ID;
    OnlyKid(tree, tree[0].id, 1);
    OnlyKid(tree, tree[1].id, 2);
  }

  lemma OnlyKid(tree: Tree, id: string, c: nat)
    requires c < |tree| && forall k :: 0 <= k < |tree| ==> (tree[k].parent == Some(id) <==> k == c)
    ensures KidsOf(tree, id) == [c]
  {
    KidsAreTheChildren(tree, id);
    OnlyMember(KidsOf(tree, id), c);
  }

  lemma OnlyMember(kids: seq<nat>, c: nat)
    requires forall k: nat :: k in kids <==> k == c
    requires forall i, j :: 0 <= i < j < |kids| ==> kids[i] < kids[j]
    ensures kids == [c]
  {
    assert c in kids;
    assert |kids| > 1 ==> kids[0] < kids[1];
    forall k | 0 <= k < |kids| ensures kids[k] == c {
      assert kids[k] in kids;
    }
  }

  lemma ListedIsNoShorter(refs: seq<Ref>)
    ensures |Listed(refs)| >= |refs|
  {
    if refs != [] {
      ListedIsNoShorter(refs[..|refs| - 1]);
    }
  }

  lemma OnlyOneListed(refs: seq<Ref>, x: nat)
    requires Listed(refs) == [x]
    ensures |refs| == 1 && refs[0].node == x && (refs[0].Expanded? ==> refs[0].refs == [])
  {
    ListedIsNoShorter(refs);
    assert refs != [];
    assert refs[..0] == [] && Listed(refs) == Listed(refs[..|refs| - 1]) + ListedOne(refs[|refs| - 1]);
    ListedIsNoShorter(refs[..|refs| - 1]);
    if refs[0].Expanded? {
      ListedIsNoShorter(refs[0].refs);
    }
  }

  lemma NotRefused(reply: Result<Reply, ExpandError>)
    requires reply != Err(BadRef) && reply != Err(UnknownRef)
    ensures reply.Ok?
  {
    if reply.Err? {
      match reply.error
      case BadRef =>
      case UnknownRef =>
    }
  }

  /** A reply cut after one reference passes the component off as a leaf, although its data item is there. */
  method CutNodeLooksLikeALeaf() returns (reply: Reply)
    ensures reply.truncated && reply.depth == 2 && |reply.refs| == 1
    ensures reply.refs[0] == Expanded(1, false, []) && Kids(TreeOf(ONE_AXIS), 1) != []
    ensures Misreports(TreeOf(ONE_AXIS), reply.refs)
  {
    OneAxisProjects();
    OneAxisKids();
    var tree := TreeOf(ONE_AXIS);
    assert tree[0].id == Meant("root") && tree[1].id != tree[0].id && tree[2].id != tree[0].id;
    assert BelowFirst(tree, 1, 1, 1) == [SpotOf(tree, 2, 1)];
    assert AtAndBelow(tree, 1, 2) == [SpotOf(tree, 1, 2)] + Below(tree, 1, 1);
    assert BelowFirst(tree, 0, 1, 2) == AtAndBelow(tree, 1, 2);
    assert Below(tree, 0, 2) == [SpotOf(tree, 1, 2), SpotOf(tree, 2, 1)];
    var ref := "root";
    assert ref != "" && tree[0].id == Meant(ref);
    var expanded := Expand(tree, [false, false, false], Some(ref), Some(2), Some(1));
    NotRefused(expanded);
    reply := expanded.value;
    assert Within(Below(tree, 0, 2), 1) == [SpotOf(tree, 1, 2)];
    OnlyOneListed(reply.refs, 1);
    assert reply.refs[..0] == [] && FaithfulOne(tree, [false, false, false], reply.refs[0], 2);
  }
}
