/** What lookups in a built collection tree return. */
module TreeProperties {
  import opened Wrappers
  import opened Uuids
  import opened PathOrder
  import opened CollectionItems
  import opened CollectionTree

  ghost predicate UniqueIds(s: seq<Item>) {
    forall i, j :: 0 <= i < j < |s| ==> s[i].id != s[j].id
  }

  ghost predicate Built(s: seq<Item>, nodes: seq<TreeNode>, items: map<Uuid, TreeIndex>) {
    NonEmptyPaths(s) && Sorted(s) && Linked(s, nodes) && IdIndexed(s, items)
  }

  lemma {:induction false} LinkedParentsBelow(s: seq<Item>, nodes: seq<TreeNode>)
    requires NonEmptyPaths(s) && Linked(s, nodes)
    ensures ParentsBelow(nodes)
  {
    forall i | 0 <= i < |nodes| && nodes[i].parentIdx.Some? ensures nodes[i].parentIdx.value < i {
      assert ParentLink(s, i, nodes[i].parentIdx);
    }
  }

  // ---------------------------------------------------------------- uniqueness

  lemma {:induction false} HasMember<T>(a: seq<T>)
    requires a != []
    ensures exists x :: x in a
  {
    assert a[0] in a;
  }

  lemma {:induction false} BelowLast(a: seq<nat>, k: nat)
    requires Ascending(a) && a != []
    ensures k in a[..|a| - 1] <==> k in a && k != a[|a| - 1]
  {
    assert a == a[..|a| - 1] + [a[|a| - 1]];
  }

  lemma {:induction false} AscendingUnique(a: seq<nat>, b: seq<nat>)
    requires Ascending(a) && Ascending(b)
    requires forall k :: k in a <==> k in b
    ensures a == b
  {
    if a == [] {
      if b != [] {
        HasMember(b);
        assert false;
      }
    } else {
      assert a[|a| - 1] in b && b != [];
      assert b[|b| - 1] in a;
      var a', b' := a[..|a| - 1], b[..|b| - 1];
      assert a[|a| - 1] == b[|b| - 1];
      forall k ensures k in a' <==> k in b' {
        BelowLast(a, k);
        BelowLast(b, k);
      }
      assert a == a' + [a[|a| - 1]] && b == b' + [b[|b| - 1]];
      AscendingUnique(a', b');
    }
  }

  /** The paths determine every link: two node vectors for the same items are equal. */
  lemma {:induction false} LinkedUnique(s: seq<Item>, n: seq<TreeNode>, m: seq<TreeNode>)
    requires NonEmptyPaths(s) && Linked(s, n) && Linked(s, m)
    ensures n == m
  {
    forall i | 0 <= i < |s| ensures n[i].parentIdx == m[i].parentIdx {
      assert ParentLink(s, i, n[i].parentIdx) && ParentLink(s, i, m[i].parentIdx);
    }
    forall i | 0 <= i < |s| ensures n[i] == m[i] {
      assert ChildList(n, Some(i), n[i].childrenIdx) && ChildList(m, Some(i), m[i].childrenIdx);
      AscendingUnique(n[i].childrenIdx, m[i].childrenIdx);
    }
  }

  // ---------------------------------------------------------------- lookups

  ghost predicate Occurs(s: seq<Item>, p: Path) {
    exists k :: 0 <= k < |s| && s[k].path == p
  }

  lemma {:induction false} UniqueLookup(s: seq<Item>, nodes: seq<TreeNode>, items: map<Uuid, TreeIndex>, k: nat)
    requires Built(s, nodes, items) && UniqueIds(s) && k < |s|
    ensures s[k].id in items && items[s[k].id] == TreeIndex(k, s[k], s[k].path)
    ensures ItemAt(nodes, items, k) == Some(s[k])
  {
    var t := items[s[k].id];
    assert s[t.id].id == s[k].id;
    assert t.id == k;
  }

  ghost predicate Below(idxs: seq<nat>, n: nat) {
    forall m :: 0 <= m < |idxs| ==> idxs[m] < n
  }

  /** Every position leads back to its own item. */
  ghost predicate Resolves(s: seq<Item>, nodes: seq<TreeNode>, items: map<Uuid, TreeIndex>) {
    forall k :: 0 <= k < |s| ==> ItemAt(nodes, items, k) == Some(s[k])
  }

  lemma {:induction false} UniqueResolves(s: seq<Item>, nodes: seq<TreeNode>, items: map<Uuid, TreeIndex>)
    requires Built(s, nodes, items) && UniqueIds(s)
    ensures Resolves(s, nodes, items)
  {
    forall k | 0 <= k < |s| ensures ItemAt(nodes, items, k) == Some(s[k]) {
      UniqueLookup(s, nodes, items, k);
    }
  }

  /** The items at the given positions. */
  function Pick(s: seq<Item>, idxs: seq<nat>): (r: seq<Item>)
    requires forall m :: 0 <= m < |idxs| ==> idxs[m] < |s|
    ensures |r| == |idxs| && forall m :: 0 <= m < |r| ==> r[m] == s[idxs[m]]
  {
    if idxs == [] then [] else [s[idxs[0]]] + Pick(s, idxs[1..])
  }

  lemma {:induction false} ItemsAtPick(s: seq<Item>, nodes: seq<TreeNode>, items: map<Uuid, TreeIndex>, idxs: seq<nat>)
    requires Resolves(s, nodes, items)
    requires Below(idxs, |s|)
    ensures ItemsAt(nodes, items, idxs) == Pick(s, idxs)
  {
    if idxs != [] {
      ItemsAtPick(s, nodes, items, idxs[1..]);
    }
  }

  // ---------------------------------------------------------------- children

  /** The items one segment below `p`, in order. */
  function ChildrenAt(s: seq<Item>, p: Path): seq<Item>
    requires NonEmptyPaths(s)
  {
    if s == [] then []
    else
      var n := |s| - 1;
      ChildrenAt(s[..n], p) + if ParentPath(s[n].path) == p then [s[n]] else []
  }

  function ChildIdxs(s: seq<Item>, p: Path, n: nat): (r: seq<nat>)
    requires NonEmptyPaths(s) && n <= |s|
    ensures Ascending(r) && Below(r, n)
    ensures forall k :: k in r <==> 0 <= k < n && ParentPath(s[k].path) == p
  {
    if n == 0 then []
    else
      ChildIdxs(s, p, n - 1) + if ParentPath(s[n - 1].path) == p then [n - 1] else []
  }

  lemma {:induction false} PickAppend(s: seq<Item>, r: seq<nat>, k: nat)
    requires k < |s| && forall m :: 0 <= m < |r| ==> r[m] < |s|
    ensures Pick(s, r + [k]) == Pick(s, r) + [s[k]]
  {
  }

  lemma {:induction false} ChildrenAtStep(s: seq<Item>, p: Path, n: nat)
    requires NonEmptyPaths(s) && 0 < n <= |s|
    ensures ChildrenAt(s[..n], p) == ChildrenAt(s[..n - 1], p) + if ParentPath(s[n - 1].path) == p then [s[n - 1]] else []
  {
    assert s[..n][..n - 1] == s[..n - 1];
  }

  lemma {:induction false} PickChildIdxs(s: seq<Item>, p: Path, n: nat)
    requires NonEmptyPaths(s) && n <= |s|
    ensures Pick(s, ChildIdxs(s, p, n)) == ChildrenAt(s[..n], p)
  {
    if n > 0 {
      PickChildIdxs(s, p, n - 1);
      ChildrenAtStep(s, p, n);
      PickAppend(s, ChildIdxs(s, p, n - 1), n - 1);
    }
  }

  /** Only the last item at a path has children, and it has all of them. */
  lemma {:induction false} ChildrenExact(s: seq<Item>, nodes: seq<TreeNode>, i: nat)
    requires NonEmptyPaths(s) && Linked(s, nodes) && i < |s|
    ensures Below(nodes[i].childrenIdx, |s|)
    ensures Pick(s, nodes[i].childrenIdx) == if LastAt(s, s[i].path, i) then ChildrenAt(s, s[i].path) else []
  {
    assert ChildList(nodes, Some(i), nodes[i].childrenIdx);
    forall k | 0 <= k < |s|
      ensures k in nodes[i].childrenIdx <==> ParentPath(s[k].path) == s[i].path && LastAt(s, s[i].path, i)
    {
      assert ParentLink(s, k, nodes[k].parentIdx);
    }
    if LastAt(s, s[i].path, i) {
      AscendingUnique(nodes[i].childrenIdx, ChildIdxs(s, s[i].path, |s|));
      PickChildIdxs(s, s[i].path, |s|);
      assert s[..|s|] == s;
    } else {
      if nodes[i].childrenIdx != [] {
        HasMember(nodes[i].childrenIdx);
        assert false;
      }
    }
  }

  // ---------------------------------------------------------------- ancestors

  /** `j` is the item at the prefix of length `m`, and no prefix from there up to `p` is missing. */
  ghost predicate AncestorAt(s: seq<Item>, p: Path, m: nat, j: nat) {
    && m < |p|
    && LastAt(s, p[..m], j)
    && forall l :: m <= l < |p| ==> Occurs(s, p[..l])
  }

  lemma {:induction false} AncestorStep(s: seq<Item>, p: Path, up: nat, m: nat, j: nat)
    requires p != [] && LastAt(s, ParentPath(p), up)
    ensures AncestorAt(s, p, m, j) <==> (m == |p| - 1 && j == up) || AncestorAt(s, ParentPath(p), m, j)
  {
    assert Occurs(s, ParentPath(p));
    forall l | 0 <= l < |p| ensures p[..l] == ParentPath(p)[..l] { }
    if AncestorAt(s, ParentPath(p), m, j) {
      forall l | m <= l < |p| ensures Occurs(s, p[..l]) {
        if l < |p| - 1 { assert Occurs(s, ParentPath(p)[..l]); }
      }
    }
    if AncestorAt(s, p, m, j) && m < |p| - 1 {
      forall l | m <= l < |p| - 1 ensures Occurs(s, ParentPath(p)[..l]) {
        assert Occurs(s, p[..l]);
      }
    }
  }

  /** The walk visits exactly the gap-free run of proper prefixes that exist. */
  lemma {:induction false} AncestorWalkExact(s: seq<Item>, nodes: seq<TreeNode>, i: nat)
    requires NonEmptyPaths(s) && Linked(s, nodes) && ParentsBelow(nodes) && i < |s|
    ensures forall j: nat :: j in AncestorIdxs(nodes, nodes[i].parentIdx) <==> exists m: nat :: AncestorAt(s, s[i].path, m, j)
    ensures Below(AncestorIdxs(nodes, nodes[i].parentIdx), i)
    decreases i
  {
    var p := s[i].path;
    assert ParentLink(s, i, nodes[i].parentIdx);
    match nodes[i].parentIdx
    case None =>
      forall m: nat, j: nat ensures !AncestorAt(s, p, m, j) {
        assert !Occurs(s, p[..|p| - 1]);
      }
    case Some(up) =>
      AncestorWalkExact(s, nodes, up);
      var walk := AncestorIdxs(nodes, Some(up));
      assert walk == [up] + AncestorIdxs(nodes, nodes[up].parentIdx);
      assert AncestorAt(s, p, |p| - 1, up);
      forall j: nat ensures j in walk <==> exists m: nat :: AncestorAt(s, p, m, j) {
        if m: nat :| AncestorAt(s, p, m, j) {
          AncestorStep(s, p, up, m, j);
        }
        if j in walk && j != up {
          var m: nat :| AncestorAt(s, s[up].path, m, j);
          AncestorStep(s, p, up, m, j);
        }
      }
  }

  lemma {:induction false} AncestorNamesExact(a: seq<Item>)
    requires forall i, j :: 0 <= i < |a| && 0 <= j < |a| && a[i].id == a[j].id ==> a[i] == a[j]
    ensures forall x :: x in a ==> x.id in AncestorNames(a) && AncestorNames(a)[x.id] == x.shortName
    ensures forall u :: u in AncestorNames(a) ==> exists x :: x in a && x.id == u
  {
    if a != [] {
      var n := |a| - 1;
      assert a == a[..n] + [a[n]];
      AncestorNamesExact(a[..n]);
      forall x | x in a
        ensures x.id in AncestorNames(a) && AncestorNames(a)[x.id] == x.shortName
      {
        if x.id != a[n].id { assert x in a[..n]; }
      }
      forall u | u in AncestorNames(a) ensures exists x :: x in a && x.id == u {
        if u == a[n].id {
          assert a[n] in a;
        } else {
          var x :| x in a[..n] && x.id == u;
          assert x in a;
        }
      }
    }
  }

  ghost predicate AncestorsExact(s: seq<Item>, p: Path, ancestors: map<Uuid, string>) {
    && (forall m: nat, j: nat :: AncestorAt(s, p, m, j) ==>
          s[j].id in ancestors && ancestors[s[j].id] == s[j].shortName)
    && (forall u :: u in ancestors ==> exists m: nat, j: nat :: AncestorAt(s, p, m, j) && s[j].id == u)
  }

  lemma {:induction false} NamesOfPick(s: seq<Item>, p: Path, walk: seq<nat>)
    requires UniqueIds(s) && Below(walk, |s|)
    requires forall j: nat :: j in walk <==> exists m: nat :: AncestorAt(s, p, m, j)
    ensures AncestorsExact(s, p, AncestorNames(Pick(s, walk)))
  {
    var a := Pick(s, walk);
    AncestorNamesExact(a);
    forall m: nat, j: nat | AncestorAt(s, p, m, j) ensures s[j] in a {
      assert j in walk;
      var k :| 0 <= k < |walk| && walk[k] == j;
      assert a[k] == s[j];
    }
    forall u | u in AncestorNames(a) ensures exists m: nat, j: nat :: AncestorAt(s, p, m, j) && s[j].id == u {
      var x :| x in a && x.id == u;
      var k :| 0 <= k < |a| && a[k] == x;
      assert walk[k] in walk;
      var m: nat :| AncestorAt(s, p, m, walk[k]);
    }
  }

  lemma {:induction false} AncestorMapExact(s: seq<Item>, nodes: seq<TreeNode>, items: map<Uuid, TreeIndex>, i: nat)
    requires NonEmptyPaths(s) && Linked(s, nodes) && ParentsBelow(nodes)
    requires UniqueIds(s) && Resolves(s, nodes, items) && i < |s|
    ensures AncestorsExact(s, s[i].path,
                           AncestorNames(ItemsAt(nodes, items, AncestorIdxs(nodes, nodes[i].parentIdx))))
  {
    var walk := AncestorIdxs(nodes, nodes[i].parentIdx);
    AncestorWalkExact(s, nodes, i);
    assert Below(walk, |s|);
    ItemsAtPick(s, nodes, items, walk);
    NamesOfPick(s, s[i].path, walk);
  }

  // ---------------------------------------------------------------- one item

  ghost predicate ParentItem(s: seq<Item>, p: Path, parent: Option<Item>)
    requires p != []
  {
    match parent
    case Some(x) => exists j :: LastAt(s, ParentPath(p), j) && s[j] == x
    case None => !Occurs(s, ParentPath(p))
  }

  /** With unique ids a lookup returns the item with the relatives its path gives it. */
  lemma {:induction false} LookupExact(s: seq<Item>, nodes: seq<TreeNode>, items: map<Uuid, TreeIndex>, i: nat)
    requires Built(s, nodes, items) && UniqueIds(s) && i < |s|
    ensures ParentsBelow(nodes)
    ensures ItemById(nodes, items, s[i].id).Some?
    ensures var r := ItemById(nodes, items, s[i].id).value;
            && r.item == s[i]
            && ParentItem(s, s[i].path, r.parent)
            && r.children == (if LastAt(s, s[i].path, i) then ChildrenAt(s, s[i].path) else [])
            && AncestorsExact(s, s[i].path, r.ancestors)
  {
    LinkedParentsBelow(s, nodes);
    UniqueLookup(s, nodes, items, i);
    ChildrenExact(s, nodes, i);
    UniqueResolves(s, nodes, items);
    ItemsAtPick(s, nodes, items, nodes[i].childrenIdx);
    AncestorMapExact(s, nodes, items, i);
    assert ParentLink(s, i, nodes[i].parentIdx);
    if nodes[i].parentIdx.Some? {
      UniqueLookup(s, nodes, items, nodes[i].parentIdx.value);
    }
  }

  lemma {:induction false} InPicked(s: seq<Item>, idxs: seq<nat>, picked: seq<Item>, k: nat)
    requires UniqueIds(s) && Below(idxs, |s|) && k < |s|
    requires |picked| == |idxs| && forall m :: 0 <= m < |idxs| ==> picked[m] == s[idxs[m]]
    ensures s[k] in picked <==> k in idxs
  {
    if s[k] in picked {
      var m :| 0 <= m < |picked| && picked[m] == s[k];
      assert s[idxs[m]].id == s[k].id;
    }
    if k in idxs {
      var m :| 0 <= m < |idxs| && idxs[m] == k;
      assert picked[m] == s[k];
    }
  }

  /** The item a parent link names. */
  function ParentOf(s: seq<Item>, link: Option<nat>): Option<Item> {
    if link.Some? && link.value < |s| then Some(s[link.value]) else None
  }

  lemma {:induction false} LookupLinks(s: seq<Item>, nodes: seq<TreeNode>, items: map<Uuid, TreeIndex>, i: nat)
    requires Resolves(s, nodes, items) && ParentsBelow(nodes) && |nodes| == |s| && i < |s|
    requires s[i].id in items && items[s[i].id].id == i && Below(nodes[i].childrenIdx, |s|)
    ensures ItemById(nodes, items, s[i].id).Some?
    ensures ItemById(nodes, items, s[i].id).value.children == Pick(s, nodes[i].childrenIdx)
    ensures ItemById(nodes, items, s[i].id).value.parent == ParentOf(s, nodes[i].parentIdx)
  {
    ItemsAtPick(s, nodes, items, nodes[i].childrenIdx);
  }

  lemma {:induction false} LinksAgree(s: seq<Item>, nodes: seq<TreeNode>, i: nat, k: nat)
    requires UniqueIds(s) && |nodes| == |s| && i < |s| && k < |s|
    requires ChildList(nodes, Some(i), nodes[i].childrenIdx) && Below(nodes[i].childrenIdx, |s|)
    ensures s[k] in Pick(s, nodes[i].childrenIdx) <==> ParentOf(s, nodes[k].parentIdx) == Some(s[i])
  {
    InPicked(s, nodes[i].childrenIdx, Pick(s, nodes[i].childrenIdx), k);
    if ParentOf(s, nodes[k].parentIdx) == Some(s[i]) {
      assert s[nodes[k].parentIdx.value].id == s[i].id;
    }
  }

  /** One item is listed as a child of another exactly when the other is its parent. */
  lemma {:induction false} RelativesAgree(s: seq<Item>, nodes: seq<TreeNode>, items: map<Uuid, TreeIndex>, i: nat, k: nat)
    requires Built(s, nodes, items) && UniqueIds(s) && ParentsBelow(nodes) && i < |s| && k < |s|
    ensures var above, below := ItemById(nodes, items, s[i].id), ItemById(nodes, items, s[k].id);
            above.Some? && below.Some? && (s[k] in above.value.children <==> below.value.parent == Some(s[i]))
  {
    UniqueResolves(s, nodes, items);
    UniqueLookup(s, nodes, items, i);
    UniqueLookup(s, nodes, items, k);
    ChildrenExact(s, nodes, i);
    ChildrenExact(s, nodes, k);
    LookupLinks(s, nodes, items, i);
    LookupLinks(s, nodes, items, k);
    LinksAgree(s, nodes, i, k);
  }
}
