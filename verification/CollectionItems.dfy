/** The items a collection tree holds, and the stable sort by path that orders them. */
module CollectionItems {
  import opened Uuids
  import opened PathOrder

  /** What the tree reads of an item: its id, its display name and its path. */
  datatype Item = Item(id: Uuid, shortName: string, path: Path)

  ghost predicate Sorted(s: seq<Item>) {
    forall i, j :: 0 <= i < j < |s| ==> PathLeq(s[i].path, s[j].path)
  }

  /** The items at one path, in order. */
  function WithPath(s: seq<Item>, p: Path): seq<Item> {
    if s == [] then []
    else (if s[0].path == p then [s[0]] else []) + WithPath(s[1..], p)
  }

  ghost predicate SameAtEveryPath(s: seq<Item>, t: seq<Item>) {
    forall p :: WithPath(s, p) == WithPath(t, p)
  }

  function Insert(x: Item, s: seq<Item>): seq<Item> {
    if s == [] then [x]
    else if PathLeq(x.path, s[0].path) then [x] + s
    else [s[0]] + Insert(x, s[1..])
  }

  /** Stable sort by path. */
  function SortByPath(s: seq<Item>): seq<Item> {
    if s == [] then [] else Insert(s[0], SortByPath(s[1..]))
  }

  lemma {:induction false} InsertContents(x: Item, s: seq<Item>)
    ensures multiset(Insert(x, s)) == multiset(s) + multiset{x}
  {
    if s == [] {
    } else if PathLeq(x.path, s[0].path) {
    } else {
      InsertContents(x, s[1..]);
      assert s == [s[0]] + s[1..];
    }
  }

  lemma {:induction false} InsertSorted(x: Item, s: seq<Item>)
    requires Sorted(s)
    ensures Sorted(Insert(x, s))
  {
    PathTotalOrder();
    if s == [] {
    } else if PathLeq(x.path, s[0].path) {
    } else {
      InsertSorted(x, s[1..]);
      InsertContents(x, s[1..]);
      var r := Insert(x, s[1..]);
      forall j | 0 <= j < |r| ensures PathLeq(s[0].path, r[j].path) {
        assert r[j] in multiset(r);
        assert r[j] == x || r[j] in s[1..];
      }
    }
  }

  lemma {:induction false} InsertStable(x: Item, s: seq<Item>, p: Path)
    requires Sorted(s)
    ensures WithPath(Insert(x, s), p) == WithPath([x] + s, p)
  {
    if s == [] {
    } else if PathLeq(x.path, s[0].path) {
    } else {
      PathTotalOrder();
      InsertStable(x, s[1..], p);
      assert ([x] + s)[1..] == s && ([x] + s[1..])[1..] == s[1..];
      assert Insert(x, s)[1..] == Insert(x, s[1..]);
    }
  }

  lemma {:induction false} SortSorted(s: seq<Item>)
    ensures Sorted(SortByPath(s))
  {
    if s != [] {
      SortSorted(s[1..]);
      InsertSorted(s[0], SortByPath(s[1..]));
    }
  }

  lemma {:induction false} SortContents(s: seq<Item>)
    ensures multiset(SortByPath(s)) == multiset(s)
  {
    if s != [] {
      SortContents(s[1..]);
      InsertContents(s[0], SortByPath(s[1..]));
      assert s == [s[0]] + s[1..];
    }
  }

  lemma {:induction false} SortStable(s: seq<Item>, p: Path)
    ensures WithPath(SortByPath(s), p) == WithPath(s, p)
  {
    if s != [] {
      var t := SortByPath(s[1..]);
      SortStable(s[1..], p);
      SortSorted(s[1..]);
      InsertStable(s[0], t, p);
      assert ([s[0]] + t)[1..] == t;
    }
  }

  lemma {:induction false} WithPathMember(s: seq<Item>, p: Path)
    ensures WithPath(s, p) != [] <==> exists k :: 0 <= k < |s| && s[k].path == p
  {
    if s != [] {
      WithPathMember(s[1..], p);
      if k :| 0 <= k < |s| && s[k].path == p {
        if k > 0 {
          assert s[1..][k - 1].path == p;
        }
      }
      if s[0].path != p && WithPath(s[1..], p) != [] {
        var k :| 0 <= k < |s[1..]| && s[1..][k].path == p;
        assert s[k + 1].path == p;
      }
    }
  }

  /** A sorted sequence starts at the least path that occurs in it. */
  lemma {:induction false} SameFirstPath(t: seq<Item>, u: seq<Item>)
    requires Sorted(t) && Sorted(u) && t != [] && u != []
    requires SameAtEveryPath(t, u)
    ensures t[0].path == u[0].path
  {
    PathTotalOrder();
    WithPathMember(t, u[0].path);
    WithPathMember(u, u[0].path);
    WithPathMember(t, t[0].path);
    WithPathMember(u, t[0].path);
  }

  /** Sortedness and stability together leave one possible result. */
  lemma {:induction false} StableSortUnique(t: seq<Item>, u: seq<Item>)
    requires Sorted(t) && Sorted(u)
    requires SameAtEveryPath(t, u)
    ensures t == u
  {
    if t == [] {
      if u != [] {
        WithPathMember(u, u[0].path);
        assert false;
      }
    } else if u == [] {
      WithPathMember(t, t[0].path);
      assert false;
    } else {
      SameFirstPath(t, u);
      assert WithPath(t, t[0].path)[0] == t[0];
      assert WithPath(u, t[0].path)[0] == u[0];
      forall p ensures WithPath(t[1..], p) == WithPath(u[1..], p) {
        assert WithPath(t, p) == WithPath(u, p);
        if t[0].path == p {
          assert WithPath(t[1..], p) == WithPath(t, p)[1..];
          assert WithPath(u[1..], p) == WithPath(u, p)[1..];
        } else {
          assert WithPath(t[1..], p) == WithPath(t, p);
          assert WithPath(u[1..], p) == WithPath(u, p);
        }
      }
      StableSortUnique(t[1..], u[1..]);
      assert t == [t[0]] + t[1..];
      assert u == [u[0]] + u[1..];
    }
  }

  /** The one sorted sequence that keeps, at every path, the items of `s` in their order. */
  lemma {:induction false} SortByPathUnique(s: seq<Item>, t: seq<Item>)
    ensures t == SortByPath(s) <==> Sorted(t) && SameAtEveryPath(t, s)
  {
    SortSorted(s);
    forall p ensures WithPath(SortByPath(s), p) == WithPath(s, p) {
      SortStable(s, p);
    }
    if Sorted(t) && SameAtEveryPath(t, s) {
      StableSortUnique(t, SortByPath(s));
    }
  }

  /** Items that share a path are the same item. */
  ghost predicate PathsIdentify(s: seq<Item>) {
    forall x, y :: x in s && y in s && x.path == y.path ==> x == y
  }

  lemma {:induction false} SameFirstItem(t: seq<Item>, u: seq<Item>)
    requires Sorted(t) && Sorted(u) && PathsIdentify(t)
    requires t != [] && u != [] && t[0] in u && u[0] in t
    ensures t[0] == u[0]
  {
    PathTotalOrder();
    assert t[0].path == u[0].path;
  }

  lemma {:induction false} TailContents(t: seq<Item>)
    requires t != []
    ensures multiset(t[1..]) == multiset(t) - multiset{t[0]}
  {
    assert t == [t[0]] + t[1..];
  }

  lemma {:induction false} SortedPermutationUnique(t: seq<Item>, u: seq<Item>)
    requires Sorted(t) && Sorted(u) && PathsIdentify(t)
    requires multiset(t) == multiset(u)
    ensures t == u
  {
    assert |t| == |multiset(t)| == |multiset(u)| == |u|;
    if t != [] {
      assert t[0] in multiset(u) && u[0] in multiset(t);
      SameFirstItem(t, u);
      TailContents(t);
      TailContents(u);
      SortedPermutationUnique(t[1..], u[1..]);
      assert t == [t[0]] + t[1..];
    }
  }

  lemma {:induction false} MoveToFront(s: seq<Item>, i: nat) returns (m: seq<Item>)
    requires i < |s|
    ensures multiset(m) == multiset(s) && m != [] && m[0] == s[i]
  {
    m := [s[i]] + (s[..i] + s[i + 1..]);
    assert s == s[..i] + [s[i]] + s[i + 1..];
  }

  /** Reordering the input changes nothing exactly when equal paths mean equal items. */
  lemma {:induction false} SortOrderInsensitive(s: seq<Item>)
    ensures PathsIdentify(s) <==>
            forall b, c :: multiset(b) == multiset(s) == multiset(c) ==> SortByPath(b) == SortByPath(c)
  {
    if PathsIdentify(s) {
      forall b, c | multiset(b) == multiset(s) == multiset(c) ensures SortByPath(b) == SortByPath(c) {
        SortSorted(b);
        SortSorted(c);
        SortContents(b);
        SortContents(c);
        forall x | x in SortByPath(b) ensures x in s {
          assert x in multiset(SortByPath(b));
          assert x in multiset(s);
        }
        SortedPermutationUnique(SortByPath(b), SortByPath(c));
      }
    } else {
      var x, y :| x in s && y in s && x.path == y.path && x != y;
      var i :| 0 <= i < |s| && s[i] == x;
      var j :| 0 <= j < |s| && s[j] == y;
      var b := MoveToFront(s, i);
      var c := MoveToFront(s, j);
      SortStable(b, x.path);
      SortStable(c, x.path);
      assert WithPath(b, x.path)[0] == x;
      assert WithPath(c, x.path)[0] == y;
      assert SortByPath(b) != SortByPath(c);
    }
  }
}
