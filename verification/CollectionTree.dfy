/** The index-based forest that holds collections, and what its links mean. */
module CollectionTree {
  import opened Wrappers
  import opened Uuids
  import opened PathOrder
  import opened CollectionItems

  datatype TreeIndex = TreeIndex(id: nat, data: Item, path: Path)

  datatype TreeNode =
    TreeNode(id: nat, itemId: Uuid, parentIdx: Option<nat>, childrenIdx: seq<nat>, path: Path)

  /** A path without its last segment. */
  function ParentPath(p: Path): Path
    requires p != []
  {
    p[..|p| - 1]
  }

  ghost predicate NonEmptyPaths(s: seq<Item>) {
    forall i :: 0 <= i < |s| ==> s[i].path != []
  }

  /** `j` is the last position that holds path `p`. */
  ghost predicate LastAt(s: seq<Item>, p: Path, j: int) {
    0 <= j < |s| && s[j].path == p && forall k :: j < k < |s| ==> s[k].path != p
  }

  ghost predicate Ascending(a: seq<nat>) {
    forall i, j :: 0 <= i < j < |a| ==> a[i] < a[j]
  }

  /** The parent link of position `i`: the last item one segment up, if there is one. */
  ghost predicate ParentLink(s: seq<Item>, i: nat, parent: Option<nat>)
    requires i < |s| && s[i].path != []
  {
    match parent
    case Some(j) => j < i && LastAt(s, ParentPath(s[i].path), j)
    case None => forall k :: 0 <= k < |s| ==> s[k].path != ParentPath(s[i].path)
  }

  /** The child list of `parent`: every node that names it, in ascending order. */
  ghost predicate ChildList(nodes: seq<TreeNode>, parent: Option<nat>, children: seq<nat>) {
    && Ascending(children)
    && (forall k :: k in children ==> k < |nodes|)
    && (forall k :: 0 <= k < |nodes| ==> (k in children <==> nodes[k].parentIdx == parent))
  }

  /** Node `i` stands for item `i`, and parents and children are the ones the paths give. */
  ghost predicate Linked(s: seq<Item>, nodes: seq<TreeNode>)
    requires NonEmptyPaths(s)
  {
    && |nodes| == |s|
    && (forall i :: 0 <= i < |s| ==>
          && nodes[i].id == i && nodes[i].itemId == s[i].id && nodes[i].path == s[i].path
          && ParentLink(s, i, nodes[i].parentIdx)
          && ChildList(nodes, Some(i), nodes[i].childrenIdx))
  }

  ghost predicate PathIndexed(s: seq<Item>, pathToNode: map<Path, nat>) {
    && (forall p :: p in pathToNode ==> LastAt(s, p, pathToNode[p]))
    && (forall k :: 0 <= k < |s| ==> s[k].path in pathToNode)
  }

  ghost predicate LastWithId(s: seq<Item>, u: Uuid, t: TreeIndex) {
    && t.id < |s| && t.data == s[t.id] && t.path == t.data.path && t.data.id == u
    && forall k :: t.id < k < |s| ==> s[k].id != u
  }

  /** Each id leads to the last item that carries it. */
  ghost predicate IdIndexed(s: seq<Item>, items: map<Uuid, TreeIndex>) {
    && (forall u :: u in items ==> LastWithId(s, u, items[u]))
    && (forall k :: 0 <= k < |s| ==> s[k].id in items)
  }

  /** What `add_item` does to the node vector. */
  function AddNode(nodes: seq<TreeNode>, pathToNode: map<Path, nat>, index: TreeIndex): seq<TreeNode>
    requires index.path != []
    requires forall p :: p in pathToNode ==> pathToNode[p] < |nodes|
  {
    var up := ParentPath(index.path);
    if up in pathToNode then
      var at := pathToNode[up];
      var parent := nodes[at];
      nodes[at := parent.(childrenIdx := parent.childrenIdx + [index.id])]
      + [TreeNode(index.id, index.data.id, Some(parent.id), [], index.path)]
    else
      nodes + [TreeNode(index.id, index.data.id, None, [], index.path)]
  }

  /** One item with its relatives, as the lookups return it. */
  datatype NodeItem =
    NodeItem(item: Item, parent: Option<Item>, children: seq<Item>, ancestors: map<Uuid, string>)

  /** Parents sit at smaller positions, so walks towards the roots end. */
  ghost predicate ParentsBelow(nodes: seq<TreeNode>) {
    forall i :: 0 <= i < |nodes| && nodes[i].parentIdx.Some? ==> nodes[i].parentIdx.value < i
  }

  /** The item behind a node position, found through the id index. */
  function ItemAt(nodes: seq<TreeNode>, items: map<Uuid, TreeIndex>, i: nat): Option<Item> {
    if i < |nodes| && nodes[i].itemId in items then Some(items[nodes[i].itemId].data) else None
  }

  function ItemsAt(nodes: seq<TreeNode>, items: map<Uuid, TreeIndex>, idxs: seq<nat>): seq<Item> {
    if idxs == [] then []
    else
      var rest := ItemsAt(nodes, items, idxs[1..]);
      match ItemAt(nodes, items, idxs[0])
      case Some(item) => [item] + rest
      case None => rest
  }

  /** The positions from `start` up to a root, nearest first. */
  function AncestorIdxs(nodes: seq<TreeNode>, start: Option<nat>): seq<nat>
    requires ParentsBelow(nodes)
    decreases if start.Some? then start.value + 1 else 0
  {
    match start
    case None => []
    case Some(p) => [p] + if p < |nodes| then AncestorIdxs(nodes, nodes[p].parentIdx) else []
  }

  /** Ids and short names of the ancestors; a repeated id keeps its last entry. */
  function AncestorNames(ancestors: seq<Item>): map<Uuid, string> {
    if ancestors == [] then map[]
    else
      var last := ancestors[|ancestors| - 1];
      AncestorNames(ancestors[..|ancestors| - 1])[last.id := last.shortName]
  }

  function Relatives(nodes: seq<TreeNode>, items: map<Uuid, TreeIndex>, t: TreeIndex): Option<NodeItem>
    requires ParentsBelow(nodes)
  {
    if t.id >= |nodes| then None
    else
      var node := nodes[t.id];
      Some(NodeItem(
             t.data,
             if node.parentIdx.Some? then ItemAt(nodes, items, node.parentIdx.value) else None,
             ItemsAt(nodes, items, node.childrenIdx),
             AncestorNames(ItemsAt(nodes, items, AncestorIdxs(nodes, node.parentIdx)))))
  }

  function ItemById(nodes: seq<TreeNode>, items: map<Uuid, TreeIndex>, u: Uuid): Option<NodeItem>
    requires ParentsBelow(nodes)
  {
    if u in items then Relatives(nodes, items, items[u]) else None
  }

  /** The item ids of the roots among the first `n` nodes. */
  function RootIds(nodes: seq<TreeNode>, n: nat): seq<Uuid>
    requires n <= |nodes|
  {
    if n == 0 then []
    else RootIds(nodes, n - 1) + if nodes[n - 1].parentIdx.None? then [nodes[n - 1].itemId] else []
  }

  /** The relatives of the ids in `order`, one after the other. */
  function RelativesOf(nodes: seq<TreeNode>, items: map<Uuid, TreeIndex>, order: seq<Uuid>): seq<NodeItem>
    requires ParentsBelow(nodes)
  {
    if order == [] then []
    else
      var before := RelativesOf(nodes, items, order[..|order| - 1]);
      match ItemById(nodes, items, order[|order| - 1])
      case Some(item) => before + [item]
      case None => before
  }

  ghost predicate NoDuplicates<T>(s: seq<T>) {
    forall i, j :: 0 <= i < j < |s| ==> s[i] != s[j]
  }

  /** `order` lists the keys of the index, each once. */
  ghost predicate Enumerates(order: seq<Uuid>, items: map<Uuid, TreeIndex>) {
    NoDuplicates(order) && forall u :: u in order <==> u in items
  }

  lemma {:induction false} SortNonEmptyPaths(input: seq<Item>)
    requires NonEmptyPaths(input)
    ensures NonEmptyPaths(SortByPath(input))
  {
    SortContents(input);
    var s := SortByPath(input);
    forall i | 0 <= i < |s| ensures s[i].path != [] {
      assert s[i] in multiset(input);
    }
  }

  /** In path order no later item can be the parent of an earlier one. */
  lemma {:induction false} ParentsComeFirst(s: seq<Item>, i: nat, j: nat)
    requires Sorted(s) && i < |s| && j < |s|
    requires s[i].path != [] && s[j].path == ParentPath(s[i].path)
    ensures j < i
  {
    PathTotalOrder();
    PrefixFirst(s[j].path, s[i].path);
  }

  lemma {:induction false} AddParentLink(s: seq<Item>, x: Item, i: nat, parent: Option<nat>)
    requires NonEmptyPaths(s) && x.path != [] && Sorted(s + [x]) && i < |s|
    requires ParentLink(s, i, parent)
    ensures ParentLink(s + [x], i, parent)
  {
    var t := s + [x];
    assert t[i] == s[i];
    if x.path == ParentPath(s[i].path) {
      ParentsComeFirst(t, i, |s|);
    }
  }

  lemma {:induction false} ChildListExtends(nodes: seq<TreeNode>, n: seq<TreeNode>, parent: Option<nat>, children: seq<nat>)
    requires |n| == |nodes| + 1
    requires forall i :: 0 <= i < |nodes| ==> n[i].parentIdx == nodes[i].parentIdx
    requires ChildList(nodes, parent, children)
    ensures ChildList(n, parent, children + if n[|nodes|].parentIdx == parent then [|nodes|] else [])
  {
    var c := children + if n[|nodes|].parentIdx == parent then [|nodes|] else [];
    forall k | 0 <= k < |n| ensures k in c <==> n[k].parentIdx == parent {
      if k in children {
        assert k < |nodes|;
      }
    }
    forall i, j | 0 <= i < j < |c| ensures c[i] < c[j] {
      assert children[i] in children;
    }
  }

  /** Ids are positions, parents come before their children, and the path index stays inside. */
  ghost predicate InPlace(nodes: seq<TreeNode>, pathToNode: map<Path, nat>) {
    && (forall i :: 0 <= i < |nodes| ==> nodes[i].id == i)
    && ParentsBelow(nodes)
    && (forall p :: p in pathToNode ==> pathToNode[p] < |nodes|)
  }

  lemma {:induction false} LinkedInPlace(s: seq<Item>, nodes: seq<TreeNode>, pathToNode: map<Path, nat>)
    requires NonEmptyPaths(s) && Linked(s, nodes) && PathIndexed(s, pathToNode)
    ensures InPlace(nodes, pathToNode)
  {
    forall k | 0 <= k < |nodes| && nodes[k].parentIdx.Some? ensures nodes[k].parentIdx.value < k {
      assert ParentLink(s, k, nodes[k].parentIdx);
    }
  }

  /** The node that `add_item` appends, and the one child list that it extends. */
  lemma {:induction false} AddNodeEffect(nodes: seq<TreeNode>, pathToNode: map<Path, nat>, index: TreeIndex)
    requires InPlace(nodes, pathToNode) && index.path != [] && index.id == |nodes|
    ensures var n := AddNode(nodes, pathToNode, index);
            var up := ParentPath(index.path);
            && |n| == |nodes| + 1
            && n[|nodes|] == TreeNode(|nodes|, index.data.id,
                                      if up in pathToNode then Some(pathToNode[up]) else None, [], index.path)
            && forall i :: 0 <= i < |nodes| ==>
                 && n[i] == nodes[i].(childrenIdx := n[i].childrenIdx)
                 && n[i].childrenIdx == nodes[i].childrenIdx + if n[|nodes|].parentIdx == Some(i) then [|nodes|] else []
  {
  }

  lemma {:induction false} AddChildList(nodes: seq<TreeNode>, pathToNode: map<Path, nat>, index: TreeIndex, i: nat)
    requires InPlace(nodes, pathToNode) && index.path != [] && index.id == |nodes| && i <= |nodes|
    requires i < |nodes| ==> ChildList(nodes, Some(i), nodes[i].childrenIdx)
    ensures var n := AddNode(nodes, pathToNode, index);
            i < |n| && ChildList(n, Some(i), n[i].childrenIdx)
  {
    var n := AddNode(nodes, pathToNode, index);
    AddNodeEffect(nodes, pathToNode, index);
    if i < |nodes| {
      ChildListExtends(nodes, n, Some(i), nodes[i].childrenIdx);
    } else {
      assert ChildList(nodes, Some(i), []);
      ChildListExtends(nodes, n, Some(i), []);
    }
  }

  /** Adding the next item in path order keeps every link right. */
  lemma {:induction false} AddNodeLinked(s: seq<Item>, x: Item, nodes: seq<TreeNode>, pathToNode: map<Path, nat>)
    requires NonEmptyPaths(s) && x.path != [] && Sorted(s + [x])
    requires Linked(s, nodes) && PathIndexed(s, pathToNode)
    ensures NonEmptyPaths(s + [x])
    ensures Linked(s + [x], AddNode(nodes, pathToNode, TreeIndex(|s|, x, x.path)))
  {
    var t := s + [x];
    var index := TreeIndex(|s|, x, x.path);
    var n := AddNode(nodes, pathToNode, index);
    LinkedInPlace(s, nodes, pathToNode);
    AddNodeEffect(nodes, pathToNode, index);
    forall i | 0 <= i < |t|
      ensures n[i].id == i && n[i].itemId == t[i].id && n[i].path == t[i].path
      ensures ParentLink(t, i, n[i].parentIdx)
      ensures ChildList(n, Some(i), n[i].childrenIdx)
    {
      AddChildList(nodes, pathToNode, index, i);
      if i < |s| {
        assert t[i] == s[i];
        AddParentLink(s, x, i, nodes[i].parentIdx);
      }
    }
  }

  lemma {:induction false} AddPathIndexed(s: seq<Item>, x: Item, pathToNode: map<Path, nat>)
    requires PathIndexed(s, pathToNode)
    ensures PathIndexed(s + [x], pathToNode[x.path := |s|])
  {
  }

  lemma {:induction false} AddIdIndexed(s: seq<Item>, x: Item, items: map<Uuid, TreeIndex>)
    requires IdIndexed(s, items)
    ensures IdIndexed(s + [x], items[x.id := TreeIndex(|s|, x, x.path)])
  {
  }

  // ---------------------------------------------------------------- the whole tree

  /** The path index, the nodes and the id index of sorted items. */
  function PathsOf(s: seq<Item>): (r: map<Path, nat>)
    ensures forall p :: p in r ==> r[p] < |s|
  {
    if s == [] then map[]
    else PathsOf(s[..|s| - 1])[s[|s| - 1].path := |s| - 1]
  }

  function NodesOf(s: seq<Item>): (r: seq<TreeNode>)
    requires NonEmptyPaths(s)
    ensures |r| == |s|
  {
    if s == [] then []
    else
      var n, x := |s| - 1, s[|s| - 1];
      AddNode(NodesOf(s[..n]), PathsOf(s[..n]), TreeIndex(n, x, x.path))
  }

  function IndexOf(s: seq<Item>): map<Uuid, TreeIndex> {
    if s == [] then map[]
    else
      var n, x := |s| - 1, s[|s| - 1];
      IndexOf(s[..n])[x.id := TreeIndex(n, x, x.path)]
  }

  /** Every sorted list of items has its links and its id index. */
  lemma {:induction false} TreeExists(s: seq<Item>)
    requires NonEmptyPaths(s) && Sorted(s)
    ensures Linked(s, NodesOf(s)) && PathIndexed(s, PathsOf(s)) && IdIndexed(s, IndexOf(s))
  {
    if s != [] {
      var n := |s| - 1;
      var done, x := s[..n], s[n];
      assert s == done + [x];
      TreeExists(done);
      AddNodeLinked(done, x, NodesOf(done), PathsOf(done));
      AddPathIndexed(done, x, PathsOf(done));
      AddIdIndexed(done, x, IndexOf(done));
    }
  }

  class Tree {
    var nodes: seq<TreeNode>
    var items: map<Uuid, TreeIndex>
    var pathToNode: map<Path, nat>

    /** Builds the forest: sort by path, then add the items one by one. */
    constructor FromItems(input: seq<Item>)
      requires NonEmptyPaths(input)
      ensures NonEmptyPaths(SortByPath(input))
      ensures Linked(SortByPath(input), nodes)
      ensures PathIndexed(SortByPath(input), pathToNode)
      ensures IdIndexed(SortByPath(input), items)
      ensures nodes == NodesOf(SortByPath(input)) && items == IndexOf(SortByPath(input))
    {
      nodes, items, pathToNode := [], map[], map[];
      new;
      var sorted := SortByPath(input);
      SortNonEmptyPaths(input);
      var i := 0;
      while i < |sorted|
        invariant 0 <= i <= |sorted|
        invariant nodes == NodesOf(sorted[..i]) && pathToNode == PathsOf(sorted[..i]) && items == IndexOf(sorted[..i])
      {
        var index := TreeIndex(i, sorted[i], sorted[i].path);
        assert sorted[..i + 1][..i] == sorted[..i];
        items := items[sorted[i].id := index];
        AddItem(index);
        i := i + 1;
      }
      assert sorted[..i] == sorted;
      SortSorted(input);
      TreeExists(sorted);
    }

    /** Appends a node, linking it under the last node that holds its parent path. */
    method AddItem(index: TreeIndex)
      requires index.path != []
      requires forall p :: p in pathToNode ==> pathToNode[p] < |nodes|
      modifies this
      ensures nodes == AddNode(old(nodes), old(pathToNode), index)
      ensures pathToNode == old(pathToNode)[index.path := index.id]
      ensures items == old(items)
    {
      var parentPath := ParentPath(index.path);
      var parentId := None;
      if parentPath in pathToNode {
        var at := pathToNode[parentPath];
        var parent := nodes[at];
        nodes := nodes[at := parent.(childrenIdx := parent.childrenIdx + [index.id])];
        parentId := Some(parent.id);
      }
      var node := TreeNode(index.id, index.data.id, parentId, [], index.path);
      pathToNode := pathToNode[node.path := node.id];
      nodes := nodes + [node];
    }

    function GetItemById(u: Uuid): Option<NodeItem>
      requires ParentsBelow(nodes)
      reads this
    {
      ItemById(nodes, items, u)
    }

    function GetRootItems(): seq<NodeItem>
      requires ParentsBelow(nodes)
      reads this
    {
      RelativesOf(nodes, items, RootIds(nodes, |nodes|))
    }

    /** Lists every indexed item with its relatives, in the unspecified order of the hash map. */
    method GetFlatItems() returns (r: seq<NodeItem>)
      requires ParentsBelow(nodes)
      ensures exists order :: Enumerates(order, items) && r == RelativesOf(nodes, items, order)
    {
      r := [];
      var left := items.Keys;
      ghost var order: seq<Uuid> := [];
      while left != {}
        invariant left <= items.Keys
        invariant NoDuplicates(order) && forall u :: u in order <==> u in items && u !in left
        invariant r == RelativesOf(nodes, items, order)
      {
        var u :| u in left;
        var found := ItemById(nodes, items, u);
        assert (order + [u])[..|order|] == order;
        order := order + [u];
        left := left - {u};
        if found.Some? {
          r := r + [found.value];
        }
      }
      assert Enumerates(order, items);
    }
  }
}
