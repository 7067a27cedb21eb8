/** What a tree object built from a list of collections answers. */
module BuiltTrees {
  import opened Wrappers
  import opened Uuids
  import opened PathOrder
  import opened CollectionItems
  import opened CollectionTree
  import opened TreeProperties
  import opened TreeTraversal
  import opened TreeOrder

  lemma {:induction false} BuildsBuilt(input: seq<Item>, nodes: seq<TreeNode>, items: map<Uuid, TreeIndex>)
    requires Builds(input, nodes, items)
    ensures Built(SortByPath(input), nodes, items) && ParentsBelow(nodes)
    ensures forall x :: x in SortByPath(input) <==> x in input
  {
    SortSorted(input);
    LinkedParentsBelow(SortByPath(input), nodes);
    SortContents(input);
    forall x ensures x in SortByPath(input) <==> x in input {
      assert x in multiset(SortByPath(input)) <==> x in multiset(input);
    }
  }

  /** Looking up an id in a built tree finds exactly the ids of the input, and the item with all its relatives. */
  lemma {:induction false} GetItemByIdExact(tree: Tree, input: seq<Item>, u: Uuid)
    requires Builds(input, tree.nodes, tree.items) && UniqueIds(input)
    ensures ParentsBelow(tree.nodes)
    ensures tree.GetItemById(u).Some? <==> exists x :: x in input && x.id == u
    ensures tree.GetItemById(u).Some? ==>
              var s, r := SortByPath(input), tree.GetItemById(u).value;
              && r.item in input && r.item.id == u && r.item.path != [] && ParentItem(s, r.item.path, r.parent)
              && NonEmptyPaths(s) && AncestorsExact(s, r.item.path, r.ancestors)
              && exists i :: 0 <= i < |s| && s[i] == r.item
                             && r.children == if LastAt(s, r.item.path, i) then ChildrenAt(s, r.item.path) else []
  {
    var s := SortByPath(input);
    BuildsBuilt(input, tree.nodes, tree.items);
    UniqueIdsSorted(input);
    if u in tree.items {
      var i := tree.items[u].id;
      assert LastWithId(s, u, tree.items[u]);
      LookupExact(s, tree.nodes, tree.items, i);
      assert s[i] in input;
    }
    forall x | x in input && x.id == u ensures u in tree.items {
      assert x in s;
      var k :| 0 <= k < |s| && s[k] == x;
    }
    if tree.GetItemById(u).Some? {
      assert tree.GetItemById(u).value.item in input;
    }
  }

  lemma {:induction false} SameOccurs(s: seq<Item>, t: seq<Item>, p: Path)
    requires forall x :: x in s <==> x in t
    ensures Occurs(s, p) <==> Occurs(t, p)
  {
    if Occurs(s, p) {
      var k :| 0 <= k < |s| && s[k].path == p;
      assert s[k] in t;
    }
    if Occurs(t, p) {
      var k :| 0 <= k < |t| && t[k].path == p;
      assert t[k] in s;
    }
  }

  /** Positions without repetition give items without repetition. */
  lemma {:induction false} ListedOnceEach(s: seq<Item>, roots: seq<nat>, listed: seq<Item>)
    requires UniqueIds(s) && Ascending(roots) && |listed| == |roots|
    requires forall m :: 0 <= m < |roots| ==> roots[m] < |s| && listed[m] == s[roots[m]]
    ensures NoDuplicates(listed)
    ensures forall x :: x in listed <==> exists k :: k in roots && k < |s| && s[k] == x
  {
  }

  /** An item with no item at its parent path. */
  ghost predicate Orphan(s: seq<Item>, x: Item) {
    x in s && x.path != [] && !Occurs(s, ParentPath(x.path))
  }

  lemma {:induction false} RootMembers(s: seq<Item>, nodes: seq<TreeNode>, x: Item)
    requires NonEmptyPaths(s) && Linked(s, nodes)
    ensures (exists k :: k in RootIdxs(nodes, |nodes|) && k < |s| && s[k] == x) <==> Orphan(s, x)
  {
    forall k: nat ensures k in RootIdxs(nodes, |nodes|) <==> k < |s| && !Occurs(s, ParentPath(s[k].path)) {
      RootsAreOrphans(s, nodes, k);
    }
    if x in s {
      var k :| 0 <= k < |s| && s[k] == x;
      assert k in RootIdxs(nodes, |nodes|) <==> !Occurs(s, ParentPath(x.path));
    }
  }

  /** The root listing, and each entry as its lookup gives it. */
  lemma {:induction false} RootListing(s: seq<Item>, nodes: seq<TreeNode>, items: map<Uuid, TreeIndex>) returns (r: seq<NodeItem>)
    requires Built(s, nodes, items) && UniqueIds(s) && ParentsBelow(nodes)
    ensures r == RelativesOf(nodes, items, RootIds(nodes, |nodes|))
    ensures NoDuplicates(ItemsOf(r))
    ensures forall x :: x in ItemsOf(r) <==> exists k :: k in RootIdxs(nodes, |nodes|) && k < |s| && s[k] == x
    ensures forall m :: 0 <= m < |r| ==> Some(r[m]) == ItemById(nodes, items, r[m].item.id)
  {
    r := RelativesOf(nodes, items, RootIds(nodes, |nodes|));
    RootItemsExact(s, nodes, items);
    ListedOnceEach(s, RootIdxs(nodes, |nodes|), ItemsOf(r));
  }

  lemma {:induction false} SameOrphans(s: seq<Item>, t: seq<Item>, x: Item)
    requires forall y :: y in s <==> y in t
    ensures Orphan(s, x) <==> Orphan(t, x)
  {
    if x.path != [] {
      SameOccurs(s, t, ParentPath(x.path));
    }
  }

  lemma {:induction false} RootListingOrphans(input: seq<Item>, nodes: seq<TreeNode>, items: map<Uuid, TreeIndex>, x: Item)
    requires Builds(input, nodes, items)
    ensures (exists k :: k in RootIdxs(nodes, |nodes|) && k < |SortByPath(input)| && SortByPath(input)[k] == x) <==>
            Orphan(input, x)
  {
    BuildsBuilt(input, nodes, items);
    RootMembers(SortByPath(input), nodes, x);
    SameOrphans(SortByPath(input), input, x);
  }

  /** The root listing of a built tree holds exactly the items with no item at their parent path, each once. */
  lemma {:induction false} GetRootItemsExact(tree: Tree, input: seq<Item>)
    requires Builds(input, tree.nodes, tree.items) && UniqueIds(input)
    ensures ParentsBelow(tree.nodes) && NoDuplicates(ItemsOf(tree.GetRootItems()))
    ensures forall x :: x in ItemsOf(tree.GetRootItems()) <==> Orphan(input, x)
    ensures forall m :: 0 <= m < |tree.GetRootItems()| ==>
                        Some(tree.GetRootItems()[m]) == tree.GetItemById(tree.GetRootItems()[m].item.id)
  {
    BuildsBuilt(input, tree.nodes, tree.items);
    UniqueIdsSorted(input);
    var r := RootListing(SortByPath(input), tree.nodes, tree.items);
    forall x ensures x in ItemsOf(r) <==> Orphan(input, x) {
      RootListingOrphans(input, tree.nodes, tree.items, x);
    }
  }

  // ---------------------------------------------------------------- the order of listings

  /** Earlier entries have paths that come before those of later ones. */
  ghost predicate AscendingPaths(xs: seq<Item>) {
    forall i, j :: 0 <= i < j < |xs| ==> PathBefore(xs[i].path, xs[j].path)
  }

  lemma {:induction false} PickAscends(s: seq<Item>, idxs: seq<nat>, xs: seq<Item>)
    requires Sorted(s) && Ascending(idxs) && Below(idxs, |s|)
    requires |xs| == |idxs| && forall m :: 0 <= m < |xs| ==> xs[m] == s[idxs[m]]
    ensures AscendingPaths(xs)
  {
    forall i, j | 0 <= i < j < |xs| ensures PathBefore(xs[i].path, xs[j].path) {
      PathLeqIff(xs[i].path, xs[j].path);
    }
  }

  /** The root listing of a built tree ascends by path. */
  lemma {:induction false} RootsAscend(tree: Tree, input: seq<Item>)
    requires Builds(input, tree.nodes, tree.items) && UniqueIds(input)
    ensures ParentsBelow(tree.nodes) && AscendingPaths(ItemsOf(tree.GetRootItems()))
  {
    BuildsBuilt(input, tree.nodes, tree.items);
    UniqueIdsSorted(input);
    RootItemsExact(SortByPath(input), tree.nodes, tree.items);
    PickAscends(SortByPath(input), RootIdxs(tree.nodes, |tree.nodes|), ItemsOf(tree.GetRootItems()));
  }

  /** The children in every lookup of a built tree ascend by path. */
  lemma {:induction false} ChildrenAscend(tree: Tree, input: seq<Item>, u: Uuid)
    requires Builds(input, tree.nodes, tree.items) && UniqueIds(input)
    ensures ParentsBelow(tree.nodes)
    ensures tree.GetItemById(u).Some? ==> AscendingPaths(tree.GetItemById(u).value.children)
  {
    var s := SortByPath(input);
    BuildsBuilt(input, tree.nodes, tree.items);
    UniqueIdsSorted(input);
    if u in tree.items {
      var i := tree.items[u].id;
      assert LastWithId(s, u, tree.items[u]);
      UniqueResolves(s, tree.nodes, tree.items);
      assert ChildList(tree.nodes, Some(i), tree.nodes[i].childrenIdx);
      ChildrenExact(s, tree.nodes, i);
      LookupLinks(s, tree.nodes, tree.items, i);
      PickAscends(s, tree.nodes[i].childrenIdx, tree.GetItemById(u).value.children);
    }
  }
}
