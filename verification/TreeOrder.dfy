/** When the order of the input matters to a collection tree. */
module TreeOrder {
  import opened Wrappers
  import opened Uuids
  import opened PathOrder
  import opened CollectionItems
  import opened CollectionTree
  import opened TreeProperties

  // ---------------------------------------------------------------- what is built

  /** What a tree built from `input` holds. */
  ghost predicate Builds(input: seq<Item>, nodes: seq<TreeNode>, items: map<Uuid, TreeIndex>) {
    var s := SortByPath(input);
    NonEmptyPaths(s) && Linked(s, nodes) && IdIndexed(s, items)
  }

  lemma {:induction false} BuildsSomething(s: seq<Item>, b: seq<Item>)
    requires NonEmptyPaths(s) && multiset(b) == multiset(s)
    ensures NonEmptyPaths(SortByPath(b)) && Builds(b, NodesOf(SortByPath(b)), IndexOf(SortByPath(b)))
  {
    forall i | 0 <= i < |b| ensures b[i].path != [] {
      assert b[i] in multiset(s);
    }
    SortNonEmptyPaths(b);
    SortSorted(b);
    TreeExists(SortByPath(b));
  }

  // ---------------------------------------------------------------- positions and paths

  function Blank(x: Item, keepIds: bool): Item {
    Item(if keepIds then x.id else seq(16, i => 0), "", x.path)
  }

  /** Items with their names blanked, and their ids too unless they are kept. */
  function Blanked(s: seq<Item>, keepIds: bool): (r: seq<Item>)
    ensures |r| == |s| && forall i :: 0 <= i < |s| ==> r[i] == Blank(s[i], keepIds)
  {
    seq(|s|, i requires 0 <= i < |s| => Blank(s[i], keepIds))
  }

  function Without(s: seq<Item>, i: nat): (r: seq<Item>)
    requires i < |s|
    ensures |r| == |s| - 1
  {
    s[..i] + s[i + 1..]
  }

  lemma {:induction false} WithoutContents(s: seq<Item>, i: nat)
    requires i < |s|
    ensures multiset(s) == multiset(Without(s, i)) + multiset{s[i]}
    ensures multiset(Without(s, i)) == multiset(s) - multiset{s[i]}
  {
    assert s == s[..i] + [s[i]] + s[i + 1..];
  }

  lemma {:induction false} BlankedWithout(s: seq<Item>, i: nat, keepIds: bool)
    requires i < |s|
    ensures Blanked(Without(s, i), keepIds) == Without(Blanked(s, keepIds), i)
  {
  }

  lemma {:induction false} BlankedContents(t: seq<Item>, u: seq<Item>, keepIds: bool)
    requires multiset(t) == multiset(u)
    ensures multiset(Blanked(t, keepIds)) == multiset(Blanked(u, keepIds))
    decreases |t|
  {
    assert |t| == |multiset(t)| == |multiset(u)| == |u|;
    if t != [] {
      assert t[0] in multiset(u);
      var i :| 0 <= i < |u| && u[i] == t[0];
      WithoutContents(t, 0);
      WithoutContents(u, i);
      BlankedContents(Without(t, 0), Without(u, i), keepIds);
      BlankedWithout(t, 0, keepIds);
      BlankedWithout(u, i, keepIds);
      WithoutContents(Blanked(t, keepIds), 0);
      WithoutContents(Blanked(u, keepIds), i);
    }
  }

  lemma {:induction false} SameBlanked(t: seq<Item>, u: seq<Item>, keepIds: bool)
    requires Sorted(t) && Sorted(u) && multiset(t) == multiset(u) && PathsIdentify(Blanked(t, keepIds))
    ensures Blanked(t, keepIds) == Blanked(u, keepIds)
  {
    BlankedContents(t, u, keepIds);
    SortedPermutationUnique(Blanked(t, keepIds), Blanked(u, keepIds));
  }

  /** Two orders of the same items have, once sorted, the same path at every position. */
  lemma {:induction false} SamePaths(t: seq<Item>, u: seq<Item>)
    requires Sorted(t) && Sorted(u) && multiset(t) == multiset(u)
    ensures |t| == |u| && forall i :: 0 <= i < |t| ==> t[i].path == u[i].path
  {
    SameBlanked(t, u, false);
    forall i | 0 <= i < |t| ensures t[i].path == u[i].path {
      assert Blanked(t, false)[i] == Blanked(u, false)[i];
    }
  }

  lemma {:induction false} NoneWithPath(t: seq<Item>, p: Path)
    requires forall k :: 0 <= k < |t| ==> t[k].path != p
    ensures WithPath(t, p) == []
  {
    if t != [] {
      NoneWithPath(t[1..], p);
    }
  }

  lemma {:induction false} LastOfGroup(t: seq<Item>, p: Path, i: nat)
    requires LastAt(t, p, i)
    ensures WithPath(t, p) != [] && WithPath(t, p)[|WithPath(t, p)| - 1] == t[i]
  {
    if i > 0 {
      assert t[1..][i - 1] == t[i];
      assert LastAt(t[1..], p, i - 1);
      LastOfGroup(t[1..], p, i - 1);
    } else {
      NoneWithPath(t[1..], p);
    }
  }

  lemma {:induction false} LastExists(t: seq<Item>, k: nat) returns (i: nat)
    requires k < |t|
    ensures LastAt(t, t[k].path, i)
  {
    i := k;
    for j := k to |t|
      invariant i < |t| && t[i].path == t[k].path && forall l :: i < l < j ==> t[l].path != t[k].path
    {
      if t[j].path == t[k].path {
        i := j;
      }
    }
  }

  lemma {:induction false} MoveToBack(s: seq<Item>, i: nat) returns (m: seq<Item>)
    requires i < |s|
    ensures multiset(m) == multiset(s) && m != [] && m[|m| - 1] == s[i]
  {
    m := Without(s, i) + [s[i]];
    WithoutContents(s, i);
  }

  /** An order in which a given item sorts last among those with its path. */
  lemma {:induction false} PutLast(s: seq<Item>, x: Item) returns (b: seq<Item>, k: nat)
    requires x in s
    ensures multiset(b) == multiset(s) && LastAt(SortByPath(b), x.path, k) && SortByPath(b)[k] == x
  {
    var i :| 0 <= i < |s| && s[i] == x;
    b := MoveToBack(s, i);
    var t := SortByPath(b);
    SortContents(b);
    assert x in multiset(t);
    var at :| 0 <= at < |t| && t[at] == x;
    k := LastExists(t, at);
    LastOfGroup(t, x.path, k);
    LastOfGroup(b, x.path, |b| - 1);
    SortStable(b, x.path);
  }

  /** Two items with one path can trade places. */
  lemma {:induction false} TradePlaces(s: seq<Item>, x: Item, y: Item) returns (b: seq<Item>, c: seq<Item>, k: nat)
    requires x in s && y in s && x.path == y.path
    ensures multiset(b) == multiset(s) == multiset(c)
    ensures LastAt(SortByPath(b), x.path, k) && LastAt(SortByPath(c), x.path, k)
    ensures SortByPath(b)[k] == x && SortByPath(c)[k] == y
  {
    b, k := PutLast(s, x);
    var l: nat;
    c, l := PutLast(s, y);
    var t, u := SortByPath(b), SortByPath(c);
    SortSorted(b);
    SortSorted(c);
    SortContents(b);
    SortContents(c);
    SamePaths(t, u);
    assert k <= l && l <= k;
  }

  // ---------------------------------------------------------------- nodes and links

  /** Items that share a path share their id. */
  ghost predicate PathsIdentifyIds(s: seq<Item>) {
    forall x, y :: x in s && y in s && x.path == y.path ==> x.id == y.id
  }

  lemma {:induction false} SameLink(t: seq<Item>, u: seq<Item>, i: nat, link: Option<nat>)
    requires |t| == |u| && i < |t| && t[i].path != [] && forall k :: 0 <= k < |t| ==> t[k].path == u[k].path
    requires ParentLink(t, i, link)
    ensures ParentLink(u, i, link)
  {
  }

  /** Nodes depend on ids and paths by position, and on nothing else of the items. */
  lemma {:induction false} SameNodes(t: seq<Item>, u: seq<Item>, n: seq<TreeNode>, m: seq<TreeNode>)
    requires NonEmptyPaths(t) && NonEmptyPaths(u) && |t| == |u|
    requires forall i :: 0 <= i < |t| ==> t[i].path == u[i].path && t[i].id == u[i].id
    requires Linked(t, n) && Linked(u, m)
    ensures n == m
  {
    forall i | 0 <= i < |u| ensures ParentLink(u, i, n[i].parentIdx) {
      SameLink(t, u, i, n[i].parentIdx);
    }
    assert Linked(u, n);
    LinkedUnique(u, n, m);
  }

  lemma {:induction false} SameIds(s: seq<Item>, t: seq<Item>, u: seq<Item>)
    requires PathsIdentifyIds(s) && Sorted(t) && Sorted(u) && multiset(t) == multiset(s) == multiset(u)
    ensures |t| == |u| && forall i :: 0 <= i < |t| ==> t[i].id == u[i].id
  {
    var bt := Blanked(t, true);
    forall x, y | x in bt && y in bt && x.path == y.path ensures x == y {
      var i :| 0 <= i < |bt| && bt[i] == x;
      var j :| 0 <= j < |bt| && bt[j] == y;
      assert t[i] in multiset(s) && t[j] in multiset(s);
    }
    SameBlanked(t, u, true);
    forall i | 0 <= i < |t| ensures t[i].id == u[i].id {
      assert bt[i] == Blanked(u, true)[i];
    }
  }

  lemma {:induction false} SortedPair(s: seq<Item>, b: seq<Item>, c: seq<Item>)
    requires multiset(b) == multiset(s) == multiset(c)
    ensures Sorted(SortByPath(b)) && Sorted(SortByPath(c))
    ensures multiset(SortByPath(b)) == multiset(s) == multiset(SortByPath(c))
  {
    SortSorted(b);
    SortSorted(c);
    SortContents(b);
    SortContents(c);
  }

  /** All orders of the same items build the same nodes and links exactly when equal paths mean equal ids. */
  lemma {:induction false} NodesOrderIff(s: seq<Item>)
    requires NonEmptyPaths(s)
    ensures PathsIdentifyIds(s) <==>
            forall b, c, n, m, i, j :: multiset(b) == multiset(s) == multiset(c) && Builds(b, n, i) && Builds(c, m, j)
                                       ==> n == m
  {
    if PathsIdentifyIds(s) {
      forall b, c, n, m, i, j | multiset(b) == multiset(s) == multiset(c) && Builds(b, n, i) && Builds(c, m, j)
        ensures n == m
      {
        SortedPair(s, b, c);
        SamePaths(SortByPath(b), SortByPath(c));
        SameIds(s, SortByPath(b), SortByPath(c));
        SameNodes(SortByPath(b), SortByPath(c), n, m);
      }
    } else {
      var x, y :| x in s && y in s && x.path == y.path && x.id != y.id;
      var b, c, k := TradePlaces(s, x, y);
      BuildsSomething(s, b);
      BuildsSomething(s, c);
      assert NodesOf(SortByPath(b))[k].itemId == x.id && NodesOf(SortByPath(c))[k].itemId == y.id;
    }
  }

  // ---------------------------------------------------------------- the id index

  /** No item with the same id has a later path. */
  ghost predicate LastForId(s: seq<Item>, x: Item) {
    forall z :: z in s && z.id == x.id ==> PathLeq(z.path, x.path)
  }

  /** At the last path of each id there is only one item, possibly repeated. */
  ghost predicate LastPathsIdentify(s: seq<Item>) {
    forall x, y :: x in s && y in s && x.path == y.path && LastForId(s, x) ==> x == y
  }

  /** The indexed item is at the last path of its id. */
  lemma {:induction false} IndexedLast(s: seq<Item>, t: seq<Item>, u: Uuid, e: TreeIndex)
    requires Sorted(t) && multiset(t) == multiset(s) && LastWithId(t, u, e)
    ensures t[e.id] in s && LastForId(s, t[e.id])
  {
    assert t[e.id] in multiset(s);
    PathTotalOrder();
    forall z | z in s && z.id == u ensures PathLeq(z.path, t[e.id].path) {
      assert z in multiset(t);
      var k :| 0 <= k < |t| && t[k] == z;
    }
  }

  lemma {:induction false} IndexedLastAt(s: seq<Item>, t: seq<Item>, u: Uuid, e: TreeIndex)
    requires Sorted(t) && multiset(t) == multiset(s) && LastWithId(t, u, e) && LastPathsIdentify(s)
    ensures LastAt(t, t[e.id].path, e.id)
  {
    IndexedLast(s, t, u, e);
    forall k | e.id < k < |t| ensures t[k].path != t[e.id].path {
      assert t[k] in multiset(s);
    }
  }

  lemma {:induction false} SameEntry(s: seq<Item>, t: seq<Item>, v: seq<Item>, u: Uuid, e: TreeIndex, f: TreeIndex)
    requires Sorted(t) && Sorted(v) && multiset(t) == multiset(s) == multiset(v) && LastPathsIdentify(s)
    requires LastWithId(t, u, e) && LastWithId(v, u, f)
    ensures e == f
  {
    IndexedLast(s, t, u, e);
    IndexedLast(s, v, u, f);
    PathTotalOrder();
    assert t[e.id].path == v[f.id].path;
    assert t[e.id] == v[f.id];
    IndexedLastAt(s, t, u, e);
    IndexedLastAt(s, v, u, f);
    SamePaths(t, v);
  }

  lemma {:induction false} IdsCovered(t: seq<Item>, v: seq<Item>, i: map<Uuid, TreeIndex>, j: map<Uuid, TreeIndex>, u: Uuid)
    requires multiset(t) == multiset(v) && IdIndexed(t, i) && IdIndexed(v, j)
    ensures u in i ==> u in j
  {
    if u in i {
      var x := t[i[u].id];
      assert x in multiset(v);
      var k :| 0 <= k < |v| && v[k] == x;
    }
  }

  lemma {:induction false} SameIndex(s: seq<Item>, t: seq<Item>, v: seq<Item>, i: map<Uuid, TreeIndex>, j: map<Uuid, TreeIndex>)
    requires Sorted(t) && Sorted(v) && multiset(t) == multiset(s) == multiset(v) && LastPathsIdentify(s)
    requires IdIndexed(t, i) && IdIndexed(v, j)
    ensures i == j
  {
    forall u ensures u in i <==> u in j {
      IdsCovered(t, v, i, j, u);
      IdsCovered(v, t, j, i, u);
    }
    forall u | u in i ensures i[u] == j[u] {
      SameEntry(s, t, v, u, i[u], j[u]);
    }
  }

  /** The last item at the last path of its id is the one indexed. */
  lemma {:induction false} LastIsIndexed(s: seq<Item>, t: seq<Item>, i: map<Uuid, TreeIndex>, k: nat)
    requires Sorted(t) && multiset(t) == multiset(s) && IdIndexed(t, i)
    requires k < |t| && LastAt(t, t[k].path, k) && LastForId(s, t[k])
    ensures t[k].id in i && i[t[k].id].id == k
  {
    var x := t[k];
    PathTotalOrder();
    forall l | k < l < |t| ensures t[l].id != x.id {
      assert t[l] in multiset(s);
      assert t[l].path != x.path;
    }
    assert LastWithId(t, x.id, i[x.id]);
  }

  /** All orders of the same items build the same id index exactly when the last path of each id holds one item. */
  lemma {:induction false} IndexOrderIff(s: seq<Item>)
    requires NonEmptyPaths(s)
    ensures LastPathsIdentify(s) <==>
            forall b, c, n, m, i, j :: multiset(b) == multiset(s) == multiset(c) && Builds(b, n, i) && Builds(c, m, j)
                                       ==> i == j
  {
    if LastPathsIdentify(s) {
      forall b, c, n, m, i, j | multiset(b) == multiset(s) == multiset(c) && Builds(b, n, i) && Builds(c, m, j)
        ensures i == j
      {
        SortedPair(s, b, c);
        SameIndex(s, SortByPath(b), SortByPath(c), i, j);
      }
    } else {
      var x, y :| x in s && y in s && x.path == y.path && LastForId(s, x) && x != y;
      var b, c, k := TradePlaces(s, x, y);
      BuildsSomething(s, b);
      BuildsSomething(s, c);
      SortedPair(s, b, c);
      var t, v := SortByPath(b), SortByPath(c);
      LastIsIndexed(s, t, IndexOf(t), k);
      assert IndexOf(t)[x.id].data == x;
      assert IndexOf(t) != IndexOf(v);
    }
  }
}
