/** What a collection tree answers when ids may repeat, as the nil id of collections without an id does. */
module TreeAnyIds {
  import opened Wrappers
  import opened Uuids
  import opened PathOrder
  import opened CollectionItems
  import opened CollectionTree
  import opened TreeProperties
  import opened TreeTraversal
  import opened TreeOrder
  import opened BuiltTrees

  /** The last item with an id, which is the one that stands for the id in every answer. */
  function Holder(s: seq<Item>, u: Uuid): (r: Option<Item>)
    ensures r.Some? ==> r.value.id == u && r.value in s
    ensures r.Some? <==> exists k :: 0 <= k < |s| && s[k].id == u
  {
    if s == [] then None
    else
      var n := |s| - 1;
      if s[n].id == u then Some(s[n])
      else
        var r := Holder(s[..n], u);
        assert r.None? || exists k :: 0 <= k < |s[..n]| && s[..n][k].id == u && s[k].id == u;
        assert forall k :: 0 <= k < n ==> s[..n][k] == s[k];
        r
  }

  lemma {:induction false} HolderIsLast(s: seq<Item>, u: Uuid, t: TreeIndex)
    requires LastWithId(s, u, t)
    ensures Holder(s, u) == Some(t.data)
  {
    var n := |s| - 1;
    if t.id < n {
      assert s[n].id != u;
      assert LastWithId(s[..n], u, t);
      HolderIsLast(s[..n], u, t);
    }
  }

  function HolderOf(s: seq<Item>, x: Item): (r: Item)
    requires x in s
    ensures Some(r) == Holder(s, x.id)
  {
    Holder(s, x.id).value
  }

  /** The items that stand for the ids of the given ones. */
  function Holders(s: seq<Item>, xs: seq<Item>): (r: seq<Item>)
    requires forall i :: 0 <= i < |xs| ==> xs[i] in s
    ensures |r| == |xs| && forall i :: 0 <= i < |xs| ==> Some(r[i]) == Holder(s, xs[i].id)
  {
    seq(|xs|, i requires 0 <= i < |xs| => HolderOf(s, xs[i]))
  }

  /** Every position resolves to the holder of its id. */
  ghost predicate ResolvesToHolders(s: seq<Item>, nodes: seq<TreeNode>, items: map<Uuid, TreeIndex>) {
    forall k :: 0 <= k < |s| ==> ItemAt(nodes, items, k) == Holder(s, s[k].id)
  }

  lemma {:induction false} PositionsResolve(s: seq<Item>, nodes: seq<TreeNode>, items: map<Uuid, TreeIndex>)
    requires NonEmptyPaths(s) && Linked(s, nodes) && IdIndexed(s, items)
    ensures ResolvesToHolders(s, nodes, items)
  {
    forall k | 0 <= k < |s| ensures ItemAt(nodes, items, k) == Holder(s, s[k].id) {
      assert s[k].id in items;
      HolderIsLast(s, s[k].id, items[s[k].id]);
    }
  }

  lemma {:induction false} PickMembers(s: seq<Item>, idxs: seq<nat>)
    requires Below(idxs, |s|)
    ensures forall i :: 0 <= i < |Pick(s, idxs)| ==> Pick(s, idxs)[i] in s
  {
    var p := Pick(s, idxs);
    forall i | 0 <= i < |p| ensures p[i] in s {
      assert p[i] == s[idxs[i]];
    }
  }

  lemma {:induction false} ItemsAtEach(s: seq<Item>, nodes: seq<TreeNode>, items: map<Uuid, TreeIndex>, idxs: seq<nat>)
    requires ResolvesToHolders(s, nodes, items) && Below(idxs, |s|)
    ensures |ItemsAt(nodes, items, idxs)| == |idxs|
    ensures forall i :: 0 <= i < |idxs| ==> Some(ItemsAt(nodes, items, idxs)[i]) == Holder(s, s[idxs[i]].id)
  {
    if idxs != [] {
      ItemsAtEach(s, nodes, items, idxs[1..]);
      assert ItemAt(nodes, items, idxs[0]) == Holder(s, s[idxs[0]].id);
      assert Holder(s, s[idxs[0]].id).Some?;
    }
  }

  lemma {:induction false} ItemsAtHolders(s: seq<Item>, nodes: seq<TreeNode>, items: map<Uuid, TreeIndex>, idxs: seq<nat>)
    requires ResolvesToHolders(s, nodes, items) && Below(idxs, |s|)
    ensures forall i :: 0 <= i < |Pick(s, idxs)| ==> Pick(s, idxs)[i] in s
    ensures ItemsAt(nodes, items, idxs) == Holders(s, Pick(s, idxs))
  {
    PickMembers(s, idxs);
    ItemsAtEach(s, nodes, items, idxs);
    var a, b := ItemsAt(nodes, items, idxs), Holders(s, Pick(s, idxs));
    forall i | 0 <= i < |idxs| ensures a[i] == b[i] {
      assert Pick(s, idxs)[i] == s[idxs[i]];
    }
  }

  // ---------------------------------------------------------------- ancestors

  ghost predicate HasId(xs: seq<Item>, u: Uuid) {
    exists i :: 0 <= i < |xs| && xs[i].id == u
  }

  /** Names of holders: an id is listed when some item with it is, under the name of its holder. */
  lemma {:induction false} HolderNames(s: seq<Item>, xs: seq<Item>, u: Uuid)
    requires forall i :: 0 <= i < |xs| ==> xs[i] in s
    ensures u in AncestorNames(Holders(s, xs)) <==> HasId(xs, u)
    ensures u in AncestorNames(Holders(s, xs)) ==>
              Holder(s, u).Some? && AncestorNames(Holders(s, xs))[u] == Holder(s, u).value.shortName
  {
    if xs != [] {
      var n := |xs| - 1;
      HolderNames(s, xs[..n], u);
      assert Holders(s, xs)[..n] == Holders(s, xs[..n]);
      assert HasId(xs, u) <==> HasId(xs[..n], u) || xs[n].id == u by {
        assert forall i :: 0 <= i < n ==> xs[..n][i] == xs[i];
      }
    }
  }

  /** Some item with id `u` is on the way up from path `p`. */
  ghost predicate AncestorId(s: seq<Item>, p: Path, u: Uuid) {
    exists m: nat, j: nat :: AncestorAt(s, p, m, j) && s[j].id == u
  }

  /** The ids on the way up, each under the name of its holder. */
  ghost predicate AncestorsAnswer(s: seq<Item>, p: Path, r: map<Uuid, string>) {
    forall u :: (u in r <==> AncestorId(s, p, u)) && (u in r ==> Holder(s, u).Some? && r[u] == Holder(s, u).value.shortName)
  }

  lemma {:induction false} WalkIds(s: seq<Item>, walk: seq<nat>, p: Path, u: Uuid)
    requires Below(walk, |s|) && forall j: nat :: j in walk <==> exists m: nat :: AncestorAt(s, p, m, j)
    ensures HasId(Pick(s, walk), u) <==> AncestorId(s, p, u)
  {
    var picked := Pick(s, walk);
    if HasId(picked, u) {
      var i :| 0 <= i < |picked| && picked[i].id == u;
      assert walk[i] in walk && picked[i] == s[walk[i]];
      var m: nat :| AncestorAt(s, p, m, walk[i]);
      assert AncestorId(s, p, u);
    }
    if AncestorId(s, p, u) {
      var m: nat, j: nat :| AncestorAt(s, p, m, j) && s[j].id == u;
      assert j in walk;
      var i :| 0 <= i < |walk| && walk[i] == j;
      assert picked[i].id == u;
      assert HasId(picked, u);
    }
  }

  lemma {:induction false} WalkAnswer(s: seq<Item>, walk: seq<nat>, p: Path)
    requires Below(walk, |s|) && forall j: nat :: j in walk <==> exists m: nat :: AncestorAt(s, p, m, j)
    requires forall i :: 0 <= i < |Pick(s, walk)| ==> Pick(s, walk)[i] in s
    ensures AncestorsAnswer(s, p, AncestorNames(Holders(s, Pick(s, walk))))
  {
    var r := AncestorNames(Holders(s, Pick(s, walk)));
    forall u ensures (u in r <==> AncestorId(s, p, u)) && (u in r ==> Holder(s, u).Some? && r[u] == Holder(s, u).value.shortName) {
      HolderNames(s, Pick(s, walk), u);
      WalkIds(s, walk, p, u);
    }
  }

  lemma {:induction false} AncestorsHolders(s: seq<Item>, nodes: seq<TreeNode>, items: map<Uuid, TreeIndex>, i: nat)
    requires NonEmptyPaths(s) && Linked(s, nodes) && ParentsBelow(nodes) && ResolvesToHolders(s, nodes, items) && i < |s|
    ensures AncestorsAnswer(s, s[i].path, AncestorNames(ItemsAt(nodes, items, AncestorIdxs(nodes, nodes[i].parentIdx))))
  {
    var walk := AncestorIdxs(nodes, nodes[i].parentIdx);
    AncestorWalkExact(s, nodes, i);
    assert Below(walk, |s|);
    ItemsAtHolders(s, nodes, items, walk);
    WalkAnswer(s, walk, s[i].path);
  }

  // ---------------------------------------------------------------- lookups

  /** The holder of the last item one segment up, if there is one. */
  ghost predicate ParentAnswer(s: seq<Item>, p: Path, parent: Option<Item>)
    requires p != []
  {
    match parent
    case Some(x) => exists j :: LastAt(s, ParentPath(p), j) && Some(x) == Holder(s, s[j].id)
    case None => !Occurs(s, ParentPath(p))
  }

  /** The holders of the items one segment down, if the item is the last at its path. */
  ghost predicate ChildrenAnswer(s: seq<Item>, i: nat, children: seq<Item>)
    requires NonEmptyPaths(s) && i < |s|
  {
    var below := ChildrenAt(s, s[i].path);
    && (forall k :: 0 <= k < |below| ==> below[k] in s)
    && children == if LastAt(s, s[i].path, i) then Holders(s, below) else []
  }

  /** The answer to a lookup, from the sorted items alone, for the item at position `i`. */
  ghost predicate Answers(s: seq<Item>, i: nat, r: NodeItem)
    requires NonEmptyPaths(s) && i < |s|
  {
    && r.item == s[i] && ParentAnswer(s, s[i].path, r.parent) && ChildrenAnswer(s, i, r.children)
    && AncestorsAnswer(s, s[i].path, r.ancestors)
  }

  lemma {:induction false} ChildrenMembers(s: seq<Item>, p: Path)
    requires NonEmptyPaths(s)
    ensures forall k :: 0 <= k < |ChildrenAt(s, p)| ==> ChildrenAt(s, p)[k] in s
  {
    if s != [] {
      var n := |s| - 1;
      ChildrenMembers(s[..n], p);
      forall x | x in s[..n] ensures x in s { }
    }
  }

  lemma {:induction false} ParentHolder(s: seq<Item>, nodes: seq<TreeNode>, items: map<Uuid, TreeIndex>, i: nat)
    requires NonEmptyPaths(s) && Linked(s, nodes) && ResolvesToHolders(s, nodes, items) && i < |s|
    ensures var link := nodes[i].parentIdx;
            ParentAnswer(s, s[i].path, if link.Some? then ItemAt(nodes, items, link.value) else None)
  {
    assert ParentLink(s, i, nodes[i].parentIdx);
    if nodes[i].parentIdx.Some? {
      var j := nodes[i].parentIdx.value;
      assert LastAt(s, ParentPath(s[i].path), j);
      assert ItemAt(nodes, items, j) == Holder(s, s[j].id);
      assert Holder(s, s[j].id).Some?;
    }
  }

  lemma {:induction false} ChildrenHolders(s: seq<Item>, nodes: seq<TreeNode>, items: map<Uuid, TreeIndex>, i: nat)
    requires NonEmptyPaths(s) && Linked(s, nodes) && ResolvesToHolders(s, nodes, items) && i < |s|
    ensures ChildrenAnswer(s, i, ItemsAt(nodes, items, nodes[i].childrenIdx))
  {
    ChildrenMembers(s, s[i].path);
    ChildrenExact(s, nodes, i);
    ItemsAtHolders(s, nodes, items, nodes[i].childrenIdx);
  }

  lemma {:induction false} RelativesParts(nodes: seq<TreeNode>, items: map<Uuid, TreeIndex>, t: TreeIndex)
    requires ParentsBelow(nodes) && t.id < |nodes|
    ensures Relatives(nodes, items, t).Some?
    ensures var r, link := Relatives(nodes, items, t).value, nodes[t.id].parentIdx;
            && r.item == t.data && r.parent == (if link.Some? then ItemAt(nodes, items, link.value) else None)
            && r.children == ItemsAt(nodes, items, nodes[t.id].childrenIdx)
            && r.ancestors == AncestorNames(ItemsAt(nodes, items, AncestorIdxs(nodes, link)))
  {
  }

  /** Whatever the ids, the relatives of an indexed item are the holders of what its path gives it. */
  lemma {:induction false} RelativesAnswer(s: seq<Item>, nodes: seq<TreeNode>, items: map<Uuid, TreeIndex>, t: TreeIndex)
    requires NonEmptyPaths(s) && Linked(s, nodes) && ParentsBelow(nodes) && ResolvesToHolders(s, nodes, items)
    requires t.id < |s| && t.data == s[t.id]
    ensures Relatives(nodes, items, t).Some? && Answers(s, t.id, Relatives(nodes, items, t).value)
  {
    RelativesParts(nodes, items, t);
    ParentHolder(s, nodes, items, t.id);
    ChildrenHolders(s, nodes, items, t.id);
    AncestorsHolders(s, nodes, items, t.id);
  }

  /** Looking up any id in any built tree: found exactly when it occurs, and answered by its last item. */
  lemma {:induction false} LookupAnyIds(tree: Tree, input: seq<Item>, u: Uuid)
    requires Builds(input, tree.nodes, tree.items)
    ensures ParentsBelow(tree.nodes)
    ensures tree.GetItemById(u).Some? <==> exists x :: x in input && x.id == u
    ensures tree.GetItemById(u).Some? ==>
              exists i :: 0 <= i < |SortByPath(input)| && SortByPath(input)[i].id == u
                          && (forall k :: i < k < |SortByPath(input)| ==> SortByPath(input)[k].id != u)
                          && Answers(SortByPath(input), i, tree.GetItemById(u).value)
  {
    var s := SortByPath(input);
    BuildsBuilt(input, tree.nodes, tree.items);
    PositionsResolve(s, tree.nodes, tree.items);
    if u in tree.items {
      var t := tree.items[u];
      assert LastWithId(s, u, t);
      RelativesAnswer(s, tree.nodes, tree.items, t);
      assert s[t.id] in input;
    }
    forall x | x in input && x.id == u ensures u in tree.items {
      assert x in s;
      var k :| 0 <= k < |s| && s[k] == x;
    }
  }

  // ---------------------------------------------------------------- the root listing

  lemma {:induction false} RootIndexed(s: seq<Item>, nodes: seq<TreeNode>, items: map<Uuid, TreeIndex>, m: nat)
    requires NonEmptyPaths(s) && Linked(s, nodes) && IdIndexed(s, items) && m < |RootIdxs(nodes, |nodes|)|
    ensures |RootIds(nodes, |nodes|)| == |RootIdxs(nodes, |nodes|)| && RootIdxs(nodes, |nodes|)[m] < |s|
    ensures var u := RootIds(nodes, |nodes|)[m];
            u == s[RootIdxs(nodes, |nodes|)[m]].id && u in items && items[u].id < |nodes|
            && Holder(s, u) == Some(items[u].data)
  {
    RootIdsExact(s, nodes, |nodes|);
    var k := RootIdxs(nodes, |nodes|)[m];
    assert k in RootIdxs(nodes, |nodes|);
    assert LastWithId(s, s[k].id, items[s[k].id]);
    HolderIsLast(s, s[k].id, items[s[k].id]);
  }

  /** One entry for each of the given positions: the holder of its id. */
  ghost predicate ListsHolders(s: seq<Item>, ks: seq<nat>, r: seq<NodeItem>) {
    |r| == |ks| && Below(ks, |s|) && forall m :: 0 <= m < |ks| ==> Some(r[m].item) == Holder(s, s[ks[m]].id)
  }

  lemma {:induction false} ListingHolders(
    s: seq<Item>, nodes: seq<TreeNode>, items: map<Uuid, TreeIndex>, ks: seq<nat>, ids: seq<Uuid>)
    requires ParentsBelow(nodes) && |ids| == |ks| && Below(ks, |s|)
    requires forall m :: 0 <= m < |ids| ==> ids[m] == s[ks[m]].id && ids[m] in items && items[ids[m]].id < |nodes|
    requires forall m :: 0 <= m < |ids| ==> Holder(s, ids[m]) == Some(items[ids[m]].data)
    ensures ListsHolders(s, ks, RelativesOf(nodes, items, ids))
    ensures forall m :: 0 <= m < |ks| ==> Some(RelativesOf(nodes, items, ids)[m]) == ItemById(nodes, items, s[ks[m]].id)
  {
    RelativesOfEach(nodes, items, ids);
  }

  lemma {:induction false} RootsIndexed(s: seq<Item>, nodes: seq<TreeNode>, items: map<Uuid, TreeIndex>)
    requires NonEmptyPaths(s) && Linked(s, nodes) && IdIndexed(s, items)
    ensures var ks, ids := RootIdxs(nodes, |nodes|), RootIds(nodes, |nodes|);
            && |ids| == |ks| && Below(ks, |s|)
            && (forall m :: 0 <= m < |ids| ==> ids[m] == s[ks[m]].id && ids[m] in items && items[ids[m]].id < |nodes|)
            && (forall m :: 0 <= m < |ids| ==> Holder(s, ids[m]) == Some(items[ids[m]].data))
  {
    var ks, ids := RootIdxs(nodes, |nodes|), RootIds(nodes, |nodes|);
    RootIdsExact(s, nodes, |nodes|);
    forall m | 0 <= m < |ids|
      ensures ks[m] < |s| && ids[m] == s[ks[m]].id && ids[m] in items && items[ids[m]].id < |nodes|
      ensures Holder(s, ids[m]) == Some(items[ids[m]].data)
    {
      RootIndexed(s, nodes, items, m);
    }
  }

  /** Whatever the ids, the root listing has one entry for each root in order: the lookup of its id. */
  lemma {:induction false} RootListingAnyIds(tree: Tree, input: seq<Item>)
    requires Builds(input, tree.nodes, tree.items)
    ensures ParentsBelow(tree.nodes)
    ensures ListsHolders(SortByPath(input), RootIdxs(tree.nodes, |tree.nodes|), tree.GetRootItems())
    ensures forall m :: 0 <= m < |tree.GetRootItems()| ==>
              Some(tree.GetRootItems()[m]) == tree.GetItemById(SortByPath(input)[RootIdxs(tree.nodes, |tree.nodes|)[m]].id)
  {
    BuildsBuilt(input, tree.nodes, tree.items);
    RootsIndexed(SortByPath(input), tree.nodes, tree.items);
    ListingHolders(SortByPath(input), tree.nodes, tree.items,
                   RootIdxs(tree.nodes, |tree.nodes|), RootIds(tree.nodes, |tree.nodes|));
  }

  lemma {:induction false} ShowsOwnIff(s: seq<Item>, ks: seq<nat>, r: seq<NodeItem>)
    requires ListsHolders(s, ks, r)
    ensures ItemsOf(r) == Pick(s, ks) <==> forall m :: 0 <= m < |ks| ==> Holder(s, s[ks[m]].id) == Some(s[ks[m]])
  {
    var shown, own := ItemsOf(r), Pick(s, ks);
    assert shown == own <==> forall m :: 0 <= m < |ks| ==> shown[m] == own[m];
  }

  /** The root listing shows the roots themselves exactly when each of them is what the last item with its id is. */
  lemma {:induction false} RootListingExactIff(tree: Tree, input: seq<Item>)
    requires Builds(input, tree.nodes, tree.items)
    ensures ParentsBelow(tree.nodes)
    ensures var s, roots := SortByPath(input), RootIdxs(tree.nodes, |tree.nodes|);
            Below(roots, |s|) && (ItemsOf(tree.GetRootItems()) == Pick(s, roots) <==>
                                  forall m :: 0 <= m < |roots| ==> Holder(s, s[roots[m]].id) == Some(s[roots[m]]))
  {
    RootListingAnyIds(tree, input);
    ShowsOwnIff(SortByPath(input), RootIdxs(tree.nodes, |tree.nodes|), tree.GetRootItems());
  }
}
