/** Roots, whole-forest traversal and the flat listing of a built collection tree. */
module TreeTraversal {
  import opened Wrappers
  import opened Uuids
  import opened CollectionItems
  import opened CollectionTree
  import opened TreeProperties

  /** Child lists and parent links of the node vector agree, and parents come first. */
  ghost predicate Consistent(nodes: seq<TreeNode>) {
    && ParentsBelow(nodes)
    && forall i :: 0 <= i < |nodes| ==> ChildList(nodes, Some(i), nodes[i].childrenIdx)
  }

  lemma {:induction false} LinkedConsistent(s: seq<Item>, nodes: seq<TreeNode>)
    requires NonEmptyPaths(s) && Linked(s, nodes)
    ensures Consistent(nodes)
  {
    LinkedParentsBelow(s, nodes);
  }

  ghost predicate Within(ks: seq<nat>, lo: nat, hi: nat) {
    forall m :: 0 <= m < |ks| ==> lo <= ks[m] < hi
  }

  lemma {:induction false} ChildrenAbove(nodes: seq<TreeNode>, i: nat)
    requires Consistent(nodes) && i < |nodes|
    ensures Within(nodes[i].childrenIdx, i + 1, |nodes|)
  {
    var ks := nodes[i].childrenIdx;
    forall m | 0 <= m < |ks| ensures i + 1 <= ks[m] < |nodes| {
      assert ks[m] in ks;
    }
  }

  /** A node, then everything below it. */
  ghost function Preorder(nodes: seq<TreeNode>, i: nat): seq<nat>
    requires Consistent(nodes) && i < |nodes|
    decreases |nodes| - i, 0, 0
  {
    ChildrenAbove(nodes, i);
    [i] + PreorderAll(nodes, i + 1, nodes[i].childrenIdx)
  }

  ghost function PreorderAll(nodes: seq<TreeNode>, lo: nat, ks: seq<nat>): seq<nat>
    requires Consistent(nodes) && Within(ks, lo, |nodes|)
    decreases |nodes| - lo, 1, |ks|
  {
    if ks == [] then [] else Preorder(nodes, ks[0]) + PreorderAll(nodes, lo, ks[1..])
  }

  /** `i` lies on the way from `x` up to its root, `x` included. */
  ghost predicate OnWayUp(nodes: seq<TreeNode>, i: nat, x: nat)
    requires ParentsBelow(nodes)
    decreases x
  {
    x < |nodes| && (x == i || (nodes[x].parentIdx.Some? && OnWayUp(nodes, i, nodes[x].parentIdx.value)))
  }

  lemma {:induction false} OnWayUpBelow(nodes: seq<TreeNode>, i: nat, x: nat)
    requires ParentsBelow(nodes) && OnWayUp(nodes, i, x)
    ensures i <= x
    decreases x
  {
    if x != i {
      OnWayUpBelow(nodes, i, nodes[x].parentIdx.value);
    }
  }

  lemma {:induction false} OnWayUpChain(nodes: seq<TreeNode>, c: nat, d: nat, x: nat)
    requires ParentsBelow(nodes) && OnWayUp(nodes, c, x) && OnWayUp(nodes, d, x)
    ensures OnWayUp(nodes, c, d) || OnWayUp(nodes, d, c)
    decreases x
  {
    if x != c && x != d {
      OnWayUpChain(nodes, c, d, nodes[x].parentIdx.value);
    }
  }

  lemma {:induction false} SiblingNotAbove(nodes: seq<TreeNode>, c: nat, d: nat)
    requires ParentsBelow(nodes) && c < |nodes| && d < |nodes|
    requires c != d && nodes[c].parentIdx == nodes[d].parentIdx
    ensures !OnWayUp(nodes, c, d)
  {
    if OnWayUp(nodes, c, d) {
      OnWayUpBelow(nodes, c, nodes[d].parentIdx.value);
    }
  }

  /** Below two different children of one parent nothing is shared. */
  lemma {:induction false} SiblingsDisjoint(nodes: seq<TreeNode>, c: nat, d: nat, x: nat)
    requires ParentsBelow(nodes) && c < |nodes| && d < |nodes|
    requires c != d && nodes[c].parentIdx == nodes[d].parentIdx
    ensures !(OnWayUp(nodes, c, x) && OnWayUp(nodes, d, x))
  {
    if OnWayUp(nodes, c, x) && OnWayUp(nodes, d, x) {
      OnWayUpChain(nodes, c, d, x);
      SiblingNotAbove(nodes, c, d);
      SiblingNotAbove(nodes, d, c);
    }
  }

  lemma {:induction false} ChildOnWayUp(nodes: seq<TreeNode>, i: nat, x: nat)
    requires Consistent(nodes) && i < |nodes| && x != i
    ensures OnWayUp(nodes, i, x) <==>
            exists k: nat :: k in nodes[i].childrenIdx && OnWayUp(nodes, k, x)
    decreases x
  {
    var ks := nodes[i].childrenIdx;
    assert ChildList(nodes, Some(i), ks);
    if x < |nodes| && nodes[x].parentIdx.Some? {
      var p := nodes[x].parentIdx.value;
      if p == i {
        assert x in ks && OnWayUp(nodes, x, x);
        assert OnWayUp(nodes, i, i);
      } else {
        ChildOnWayUp(nodes, i, p);
        if k: nat :| k in ks && OnWayUp(nodes, k, x) {
          assert x !in ks;
          assert OnWayUp(nodes, k, p);
        }
      }
    } else if x < |nodes| {
      assert x !in ks;
    }
  }

  lemma {:induction false} PreorderCount(nodes: seq<TreeNode>, i: nat, x: nat)
    requires Consistent(nodes) && i < |nodes|
    ensures multiset(Preorder(nodes, i))[x] == if OnWayUp(nodes, i, x) then 1 else 0
    decreases |nodes| - i, 0, 0
  {
    var ks := nodes[i].childrenIdx;
    ChildrenAbove(nodes, i);
    assert ChildList(nodes, Some(i), ks);
    forall m | 0 <= m < |ks| ensures nodes[ks[m]].parentIdx == Some(i) {
      assert ks[m] in ks;
    }
    PreorderAllCount(nodes, i + 1, ks, Some(i), x);
    if x == i {
      if k: nat :| k in ks && OnWayUp(nodes, k, x) {
        OnWayUpBelow(nodes, k, x);
        assert false;
      }
    } else {
      ChildOnWayUp(nodes, i, x);
    }
  }

  lemma {:induction false} PreorderAllCount(nodes: seq<TreeNode>, lo: nat, ks: seq<nat>, parent: Option<nat>, x: nat)
    requires Consistent(nodes) && Within(ks, lo, |nodes|) && Ascending(ks)
    requires forall m :: 0 <= m < |ks| ==> nodes[ks[m]].parentIdx == parent
    ensures multiset(PreorderAll(nodes, lo, ks))[x]
         == if exists k: nat :: k in ks && OnWayUp(nodes, k, x) then 1 else 0
    decreases |nodes| - lo, 1, |ks|
  {
    if ks != [] {
      PreorderCount(nodes, ks[0], x);
      PreorderAllCount(nodes, lo, ks[1..], parent, x);
      assert ks == [ks[0]] + ks[1..];
      if OnWayUp(nodes, ks[0], x) {
        assert ks[0] in ks;
        forall k: nat | k in ks[1..] ensures !OnWayUp(nodes, k, x) {
          SiblingsDisjoint(nodes, ks[0], k, x);
        }
      }
    }
  }

  /** The positions without a parent among the first `n`. */
  ghost function RootIdxs(nodes: seq<TreeNode>, n: nat): (r: seq<nat>)
    requires n <= |nodes|
    ensures Ascending(r) && Within(r, 0, n)
    ensures forall k :: k in r <==> 0 <= k < n && nodes[k].parentIdx.None?
  {
    if n == 0 then [] else RootIdxs(nodes, n - 1) + if nodes[n - 1].parentIdx.None? then [n - 1] else []
  }

  lemma {:induction false} RootAbove(nodes: seq<TreeNode>, x: nat) returns (r: nat)
    requires ParentsBelow(nodes) && x < |nodes|
    ensures r in RootIdxs(nodes, |nodes|) && OnWayUp(nodes, r, x)
    decreases x
  {
    if nodes[x].parentIdx.None? {
      r := x;
    } else {
      r := RootAbove(nodes, nodes[x].parentIdx.value);
    }
  }

  /** Following child lists from the roots reaches every node exactly once. */
  lemma {:induction false} TraversalVisitsOnce(s: seq<Item>, nodes: seq<TreeNode>, x: nat)
    requires NonEmptyPaths(s) && Linked(s, nodes)
    ensures Consistent(nodes)
    ensures multiset(PreorderAll(nodes, 0, RootIdxs(nodes, |nodes|)))[x] == if x < |s| then 1 else 0
  {
    LinkedConsistent(s, nodes);
    var roots := RootIdxs(nodes, |nodes|);
    forall m | 0 <= m < |roots| ensures nodes[roots[m]].parentIdx == None {
      assert roots[m] in roots;
    }
    PreorderAllCount(nodes, 0, roots, None, x);
    if x < |s| {
      var r := RootAbove(nodes, x);
    }
  }

  lemma {:induction false} RelativesOfMore(
    nodes: seq<TreeNode>, items: map<Uuid, TreeIndex>, before: seq<Uuid>, u: Uuid)
    requires ParentsBelow(nodes) && u in items && items[u].id < |nodes|
    ensures Relatives(nodes, items, items[u]).Some?
    ensures RelativesOf(nodes, items, before + [u])
         == RelativesOf(nodes, items, before) + [Relatives(nodes, items, items[u]).value]
  {
    var order := before + [u];
    assert order[..|order| - 1] == before;
  }

  lemma {:induction false} RelativesOfEach(nodes: seq<TreeNode>, items: map<Uuid, TreeIndex>, order: seq<Uuid>)
    requires ParentsBelow(nodes)
    requires forall m :: 0 <= m < |order| ==> order[m] in items && items[order[m]].id < |nodes|
    ensures |RelativesOf(nodes, items, order)| == |order|
    ensures forall m :: 0 <= m < |order| ==>
              Some(RelativesOf(nodes, items, order)[m]) == Relatives(nodes, items, items[order[m]])
  {
    if order != [] {
      var before, u := order[..|order| - 1], order[|order| - 1];
      assert order == before + [u];
      RelativesOfEach(nodes, items, before);
      RelativesOfMore(nodes, items, before, u);
    }
  }

  lemma {:induction false} RootIdsExact(s: seq<Item>, nodes: seq<TreeNode>, n: nat)
    requires n <= |s| == |nodes| && forall k :: 0 <= k < |s| ==> nodes[k].itemId == s[k].id
    ensures |RootIds(nodes, n)| == |RootIdxs(nodes, n)|
    ensures forall m :: 0 <= m < |RootIdxs(nodes, n)| ==> RootIds(nodes, n)[m] == s[RootIdxs(nodes, n)[m]].id
  {
    if n > 0 {
      RootIdsExact(s, nodes, n - 1);
    }
  }

  /** The positions of the items that have no item at their parent path, in order. */
  lemma {:induction false} RootsAreOrphans(s: seq<Item>, nodes: seq<TreeNode>, k: nat)
    requires NonEmptyPaths(s) && Linked(s, nodes)
    ensures k in RootIdxs(nodes, |nodes|) <==> k < |s| && !Occurs(s, ParentPath(s[k].path))
  {
    if k < |s| {
      assert ParentLink(s, k, nodes[k].parentIdx);
    }
  }

  lemma {:induction false} ListingOfPositions(
    s: seq<Item>, nodes: seq<TreeNode>, items: map<Uuid, TreeIndex>, ks: seq<nat>, ids: seq<Uuid>)
    requires ParentsBelow(nodes) && Within(ks, 0, |s|) && |s| == |nodes| && |ids| == |ks|
    requires forall m :: 0 <= m < |ks| ==>
               ids[m] == s[ks[m]].id && ids[m] in items && items[ids[m]] == TreeIndex(ks[m], s[ks[m]], s[ks[m]].path)
    ensures |RelativesOf(nodes, items, ids)| == |ks|
    ensures forall m :: 0 <= m < |ks| ==>
              && RelativesOf(nodes, items, ids)[m].item == s[ks[m]]
              && Some(RelativesOf(nodes, items, ids)[m]) == ItemById(nodes, items, s[ks[m]].id)
  {
    RelativesOfEach(nodes, items, ids);
  }

  /** With unique ids the root listing is, in order, each root item with its own relatives. */
  lemma {:induction false} RootItemsExact(s: seq<Item>, nodes: seq<TreeNode>, items: map<Uuid, TreeIndex>)
    requires Built(s, nodes, items) && UniqueIds(s) && ParentsBelow(nodes)
    ensures var roots, listed := RootIdxs(nodes, |nodes|), RelativesOf(nodes, items, RootIds(nodes, |nodes|));
            && |listed| == |roots|
            && forall m :: 0 <= m < |roots| ==>
                 && listed[m].item == s[roots[m]]
                 && Some(listed[m]) == ItemById(nodes, items, s[roots[m]].id)
  {
    var roots, ids := RootIdxs(nodes, |nodes|), RootIds(nodes, |nodes|);
    RootIdsExact(s, nodes, |nodes|);
    forall m | 0 <= m < |ids|
      ensures ids[m] in items && items[ids[m]] == TreeIndex(roots[m], s[roots[m]], s[roots[m]].path)
    {
      UniqueLookup(s, nodes, items, roots[m]);
    }
    ListingOfPositions(s, nodes, items, roots, ids);
  }

  // ---------------------------------------------------------------- flat listing

  function ItemsOf(r: seq<NodeItem>): seq<Item> {
    seq(|r|, i requires 0 <= i < |r| => r[i].item)
  }

  lemma {:induction false} DuplicateCount<T>(s: seq<T>, i: nat, j: nat)
    requires i < j < |s| && s[i] == s[j]
    ensures multiset(s)[s[i]] >= 2
  {
    assert s == s[..j] + [s[j]] + s[j + 1..];
    assert s[..j][i] == s[i];
    assert s[i] in multiset(s[..j]);
  }

  lemma {:induction false} DistinctCount<T>(s: seq<T>, x: T)
    requires NoDuplicates(s)
    ensures multiset(s)[x] == if x in s then 1 else 0
  {
    if s != [] {
      var n := |s| - 1;
      assert s == s[..n] + [s[n]];
      DistinctCount(s[..n], x);
      assert s[n] !in s[..n];
    }
  }

  /** Items are told apart by their ids. */
  ghost predicate IdsIdentify(s: multiset<Item>) {
    forall x, y :: x in s && y in s && x.id == y.id ==> x == y
  }

  /** Uniqueness of ids, said of the contents alone. */
  lemma {:induction false} UniqueIdsByContents(s: seq<Item>)
    ensures UniqueIds(s) <==> IdsIdentify(multiset(s)) && forall x :: multiset(s)[x] <= 1
  {
    if UniqueIds(s) {
      forall x ensures multiset(s)[x] <= 1 {
        DistinctCount(s, x);
      }
    } else {
      var i: nat, j: nat :| i < j < |s| && s[i].id == s[j].id;
      assert s[i] in multiset(s) && s[j] in multiset(s);
      if s[i] == s[j] {
        DuplicateCount(s, i, j);
      }
    }
  }

  lemma {:induction false} UniqueIdsSorted(input: seq<Item>)
    ensures UniqueIds(input) <==> UniqueIds(SortByPath(input))
  {
    SortContents(input);
    UniqueIdsByContents(input);
    UniqueIdsByContents(SortByPath(input));
  }

  lemma {:induction false} SameMembersSameContents<T>(a: seq<T>, b: seq<T>)
    requires NoDuplicates(a) && NoDuplicates(b) && forall x :: x in a <==> x in b
    ensures multiset(a) == multiset(b)
  {
    forall x ensures multiset(a)[x] == multiset(b)[x] {
      DistinctCount(a, x);
      DistinctCount(b, x);
    }
  }

  lemma {:induction false} ListedOnce(s: seq<Item>, items: map<Uuid, TreeIndex>, order: seq<Uuid>, r: seq<Item>)
    requires IdIndexed(s, items) && UniqueIds(s) && Enumerates(order, items)
    requires |r| == |order| && forall m :: 0 <= m < |r| ==> order[m] in items && r[m] == items[order[m]].data
    ensures multiset(r) == multiset(s)
  {
    forall x ensures x in r <==> x in s {
      if x in s {
        var k :| 0 <= k < |s| && s[k] == x;
        var t := items[s[k].id];
        assert t.id == k by { assert s[t.id].id == s[k].id; }
        assert x.id in order;
        var m :| 0 <= m < |order| && order[m] == x.id;
        assert r[m] == x;
      }
    }
    forall i, j | 0 <= i < j < |r| ensures r[i] != r[j] {
      assert r[i].id == order[i] && r[j].id == order[j];
    }
    SameMembersSameContents(r, s);
  }

  /** The flat listing returns every input item exactly once if and only if ids are unique. */
  lemma {:induction false} FlatItemsExact(
    input: seq<Item>, nodes: seq<TreeNode>, items: map<Uuid, TreeIndex>, order: seq<Uuid>)
    requires IdIndexed(SortByPath(input), items) && |nodes| == |SortByPath(input)| && ParentsBelow(nodes)
    requires Enumerates(order, items)
    ensures UniqueIds(input) <==> multiset(ItemsOf(RelativesOf(nodes, items, order))) == multiset(input)
  {
    var s := SortByPath(input);
    forall m | 0 <= m < |order| ensures order[m] in items && items[order[m]].id < |nodes| && items[order[m]].data.id == order[m] {
      assert order[m] in order;
    }
    RelativesOfEach(nodes, items, order);
    var r := ItemsOf(RelativesOf(nodes, items, order));
    UniqueIdsSorted(input);
    SortContents(input);
    if UniqueIds(s) {
      ListedOnce(s, items, order, r);
    }
    assert UniqueIds(r);
    UniqueIdsByContents(r);
    UniqueIdsByContents(s);
  }

  /** Within one listing, parents and children agree with each other. */
  lemma {:induction false} FlatRelativesAgree(
    input: seq<Item>, nodes: seq<TreeNode>, items: map<Uuid, TreeIndex>, order: seq<Uuid>, a: nat, b: nat)
    requires Built(SortByPath(input), nodes, items) && UniqueIds(input) && ParentsBelow(nodes)
    requires Enumerates(order, items) && a < |order| && b < |order|
    ensures var r := RelativesOf(nodes, items, order);
            |r| == |order| && (r[b].item in r[a].children <==> r[b].parent == Some(r[a].item))
  {
    var s := SortByPath(input);
    UniqueIdsSorted(input);
    forall m | 0 <= m < |order| ensures order[m] in items && LastWithId(s, order[m], items[order[m]]) {
      assert order[m] in order;
    }
    RelativesOfEach(nodes, items, order);
    RelativesAgree(s, nodes, items, items[order[a]].id, items[order[b]].id);
  }
}
