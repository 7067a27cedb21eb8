/** Flattening nested JSON into deepObject query parameters. */
module DeepObjects {
  import opened Wrappers
  import opened Decimals

  datatype Field = Field(key: string, value: Json)

  datatype Json =
    | Null
    | Bool(b: bool)
    | Number(text: string)
    | Str(s: string)
    | Array(items: seq<Json>)
    | Object(fields: seq<Field>)

  function ScalarText(v: Json): string
    requires !v.Array? && !v.Object?
  {
    match v
    case Null => "null"
    case Bool(b) => if b then "true" else "false"
    case Number(text) => text
    case Str(s) => s
  }

  /** One scalar of the document: the keys and indices that lead to it, and its text. */
  datatype Leaf = Leaf(path: seq<string>, text: string)

  // ---------------------------------------------------------------- specification

  /** An object all of whose arrays, at every depth, hold only objects. */
  predicate Supported(v: Json) {
    v.Object? && forall i :: 0 <= i < |v.fields| ==> FieldSupported(v.fields[i])
  }

  predicate FieldSupported(f: Field) {
    match f.value
    case Object(_) => Supported(f.value)
    case Array(items) => forall j :: 0 <= j < |items| ==> Supported(items[j])
    case _ => true
  }

  function Under(seg: string, ls: seq<Leaf>): (r: seq<Leaf>)
    ensures |r| == |ls| && forall i :: 0 <= i < |ls| ==> r[i] == Leaf([seg] + ls[i].path, ls[i].text)
  {
    seq(|ls|, i requires 0 <= i < |ls| => Leaf([seg] + ls[i].path, ls[i].text))
  }

  /** The scalars of a document in traversal order. */
  function Leaves(v: Json): seq<Leaf>
    requires Supported(v)
  {
    FieldsLeaves(v.fields)
  }

  function FieldsLeaves(fs: seq<Field>): seq<Leaf>
    requires forall i :: 0 <= i < |fs| ==> FieldSupported(fs[i])
    decreases fs
  {
    if fs == [] then [] else FieldsLeaves(fs[..|fs| - 1]) + FieldLeaves(fs[|fs| - 1])
  }

  function FieldLeaves(f: Field): seq<Leaf>
    requires FieldSupported(f)
    decreases f
  {
    match f.value
    case Object(_) => Under(f.key, Leaves(f.value))
    case Array(items) => Under(f.key, ItemsLeaves(items))
    case _ => [Leaf([f.key], ScalarText(f.value))]
  }

  function ItemsLeaves(items: seq<Json>): seq<Leaf>
    requires forall j :: 0 <= j < |items| ==> Supported(items[j])
    decreases items
  {
    if items == [] then []
    else
      var n := |items| - 1;
      ItemsLeaves(items[..n]) + Under(ToDecimal(n), Leaves(items[n]))
  }

  /** The query key of a path below a prefix. */
  function Render(prefix: string, path: seq<string>): string
    decreases path
  {
    if path == [] then prefix else Render(prefix + "[" + path[0] + "]", path[1..])
  }

  function Rendered(prefix: string, ls: seq<Leaf>): (r: seq<(string, string)>)
    ensures |r| == |ls| && forall i :: 0 <= i < |ls| ==> r[i] == (Render(prefix, ls[i].path), ls[i].text)
  {
    seq(|ls|, i requires 0 <= i < |ls| => (Render(prefix, ls[i].path), ls[i].text))
  }

  lemma {:induction false} RenderedUnder(prefix: string, seg: string, ls: seq<Leaf>)
    ensures Rendered(prefix, Under(seg, ls)) == Rendered(prefix + "[" + seg + "]", ls)
  {
    forall i | 0 <= i < |ls|
      ensures Render(prefix, [seg] + ls[i].path) == Render(prefix + "[" + seg + "]", ls[i].path)
    {
      assert ([seg] + ls[i].path)[1..] == ls[i].path;
    }
  }

  lemma {:induction false} RenderedConcat(prefix: string, a: seq<Leaf>, b: seq<Leaf>)
    ensures Rendered(prefix, a + b) == Rendered(prefix, a) + Rendered(prefix, b)
  {
  }

  // ---------------------------------------------------------------- the flattening

  /** Flattens a document; `None` where the source gives up with a panic. */
  method ParseDeepObject(prefix: string, value: Json) returns (r: Option<seq<(string, string)>>)
    ensures r.Some? <==> Supported(value)
    ensures r.Some? ==> r.value == Rendered(prefix, Leaves(value))
    decreases value, 1
  {
    if !value.Object? {
      return None;
    }
    var params := [];
    var i := 0;
    while i < |value.fields|
      invariant 0 <= i <= |value.fields|
      invariant forall k :: 0 <= k < i ==> FieldSupported(value.fields[k])
      invariant params == Rendered(prefix, FieldsLeaves(value.fields[..i]))
    {
      var field := value.fields[i];
      var at := prefix + "[" + field.key + "]";
      ghost var leaves: seq<Leaf> := [];
      match field.value {
        case Object(_) =>
          var sub := ParseDeepObject(at, field.value);
          if sub.None? {
            return None;
          }
          leaves := Leaves(field.value);
          RenderedUnder(prefix, field.key, leaves);
          params := params + sub.value;
        case Array(items) =>
          var sub := ParseItems(at, items);
          if sub.None? {
            return None;
          }
          leaves := ItemsLeaves(items);
          RenderedUnder(prefix, field.key, leaves);
          params := params + sub.value;
        case _ =>
          params := params + [(at, ScalarText(field.value))];
          assert Render(prefix, [field.key]) == at by { assert [field.key][1..] == []; }
      }
      RenderedConcat(prefix, FieldsLeaves(value.fields[..i]), FieldLeaves(field));
      assert value.fields[..i + 1][..i] == value.fields[..i];
      i := i + 1;
    }
    assert value.fields[..i] == value.fields;
    r := Some(params);
  }

  /** The inner loop over one array. */
  method ParseItems(at: string, items: seq<Json>) returns (r: Option<seq<(string, string)>>)
    ensures r.Some? <==> forall j :: 0 <= j < |items| ==> Supported(items[j])
    ensures r.Some? ==> r.value == Rendered(at, ItemsLeaves(items))
    decreases items, 0
  {
    var params := [];
    var j := 0;
    while j < |items|
      invariant 0 <= j <= |items|
      invariant forall k :: 0 <= k < j ==> Supported(items[k])
      invariant params == Rendered(at, ItemsLeaves(items[..j]))
    {
      var sub := ParseDeepObject(at + "[" + ToDecimal(j) + "]", items[j]);
      if sub.None? {
        return None;
      }
      RenderedUnder(at, ToDecimal(j), Leaves(items[j]));
      RenderedConcat(at, ItemsLeaves(items[..j]), Under(ToDecimal(j), Leaves(items[j])));
      assert items[..j + 1][..j] == items[..j];
      params := params + sub.value;
      j := j + 1;
    }
    assert items[..j] == items;
    r := Some(params);
  }

  // ---------------------------------------------------------------- leaves are what paths reach

  /** Following `path` from `v`, key by key and index by index, ends at a scalar with this text. */
  ghost predicate Reaches(v: Json, path: seq<string>, text: string)
    decreases |path|, 0
  {
    && v.Object? && path != []
    && exists i :: 0 <= i < |v.fields| && v.fields[i].key == path[0] && FieldReaches(v.fields[i], path[1..], text)
  }

  ghost predicate FieldReaches(f: Field, rest: seq<string>, text: string)
    decreases |rest|, 1
  {
    match f.value
    case Object(_) => rest != [] && Reaches(f.value, rest, text)
    case Array(items) =>
      && rest != []
      && exists j :: 0 <= j < |items| && rest[0] == ToDecimal(j) && Reaches(items[j], rest[1..], text)
    case Null => rest == [] && text == "null"
    case Bool(b) => rest == [] && (if b then text == "true" else text == "false")
    case Number(digits) => rest == [] && text == digits
    case Str(characters) => rest == [] && text == characters
  }

  lemma {:induction false} InUnder(seg: string, ls: seq<Leaf>, p: seq<string>, t: string)
    ensures Leaf(p, t) in Under(seg, ls) <==> p != [] && p[0] == seg && Leaf(p[1..], t) in ls
  {
    var u := Under(seg, ls);
    if Leaf(p, t) in u {
      var i :| 0 <= i < |u| && u[i] == Leaf(p, t);
      assert p[1..] == ls[i].path;
    }
    if p != [] && p[0] == seg && Leaf(p[1..], t) in ls {
      var i :| 0 <= i < |ls| && ls[i] == Leaf(p[1..], t);
      assert u[i].path == [p[0]] + p[1..] == p;
    }
  }

  /** The emitted leaves are exactly the scalars that paths through the document reach. */
  lemma {:induction false} LeavesReach(v: Json, p: seq<string>, t: string)
    requires Supported(v)
    ensures Leaf(p, t) in Leaves(v) <==> Reaches(v, p, t)
    decreases v, 1
  {
    FieldsReach(v.fields, p, t);
  }

  lemma {:induction false} FieldsReach(fs: seq<Field>, p: seq<string>, t: string)
    requires forall i :: 0 <= i < |fs| ==> FieldSupported(fs[i])
    ensures Leaf(p, t) in FieldsLeaves(fs) <==>
            p != [] && exists i :: 0 <= i < |fs| && fs[i].key == p[0] && FieldReaches(fs[i], p[1..], t)
    decreases fs
  {
    if fs != [] {
      var n := |fs| - 1;
      FieldsReach(fs[..n], p, t);
      FieldReach(fs[n], p, t);
      assert forall i :: 0 <= i < n ==> fs[..n][i] == fs[i];
      if p != [] && exists i :: 0 <= i < |fs| && fs[i].key == p[0] && FieldReaches(fs[i], p[1..], t) {
        var i :| 0 <= i < |fs| && fs[i].key == p[0] && FieldReaches(fs[i], p[1..], t);
        if i < n {
          assert fs[..n][i] == fs[i];
        }
      }
    }
  }

  lemma {:induction false} FieldReach(f: Field, p: seq<string>, t: string)
    requires FieldSupported(f)
    ensures Leaf(p, t) in FieldLeaves(f) <==> p != [] && p[0] == f.key && FieldReaches(f, p[1..], t)
    decreases f
  {
    match f.value
    case Object(_) =>
      InUnder(f.key, Leaves(f.value), p, t);
      if p != [] { LeavesReach(f.value, p[1..], t); }
    case Array(items) =>
      InUnder(f.key, ItemsLeaves(items), p, t);
      if p != [] { ItemsReach(items, p[1..], t); }
    case _ =>
      if p != [] && p[1..] == [] {
        assert p == [p[0]];
      }
  }

  lemma {:induction false} ReachSplit(items: seq<Json>, p: seq<string>, t: string)
    requires items != [] && p != []
    ensures var n := |items| - 1;
            (exists j :: 0 <= j < |items| && p[0] == ToDecimal(j) && Reaches(items[j], p[1..], t)) <==>
            || (exists j :: 0 <= j < n && p[0] == ToDecimal(j) && Reaches(items[..n][j], p[1..], t))
            || (p[0] == ToDecimal(n) && Reaches(items[n], p[1..], t))
  {
    assert forall j :: 0 <= j < |items| - 1 ==> items[..|items| - 1][j] == items[j];
  }

  lemma {:induction false} ItemsReach(items: seq<Json>, p: seq<string>, t: string)
    requires forall j :: 0 <= j < |items| ==> Supported(items[j])
    ensures Leaf(p, t) in ItemsLeaves(items) <==>
            p != [] && exists j :: 0 <= j < |items| && p[0] == ToDecimal(j) && Reaches(items[j], p[1..], t)
    decreases items
  {
    if items != [] {
      var n := |items| - 1;
      ItemsReach(items[..n], p, t);
      InUnder(ToDecimal(n), Leaves(items[n]), p, t);
      if p != [] {
        LeavesReach(items[n], p[1..], t);
        ReachSplit(items, p, t);
      }
    }
  }

  // ---------------------------------------------------------------- order

  /** Path `p` leads to an earlier place of the document than `q`: an earlier field, or a smaller index. */
  ghost predicate Earlier(v: Json, p: seq<string>, q: seq<string>)
    decreases |p|, 1
  {
    v.Object? && FieldsEarlier(v.fields, p, q)
  }

  ghost predicate FieldsEarlier(fs: seq<Field>, p: seq<string>, q: seq<string>)
    decreases |p|, 0
  {
    && p != [] && q != []
    && exists a, b :: 0 <= a <= b < |fs| && fs[a].key == p[0] && fs[b].key == q[0]
                      && (a == b ==> FieldEarlier(fs[a], p[1..], q[1..]))
  }

  ghost predicate FieldEarlier(f: Field, p: seq<string>, q: seq<string>)
    decreases |p|, 2
  {
    match f.value
    case Object(_) => Earlier(f.value, p, q)
    case Array(items) => ItemsEarlier(items, p, q)
    case _ => false
  }

  ghost predicate ItemsEarlier(items: seq<Json>, p: seq<string>, q: seq<string>)
    decreases |p|, 0
  {
    && p != [] && q != []
    && exists a, b :: 0 <= a <= b < |items| && ToDecimal(a) == p[0] && ToDecimal(b) == q[0]
                      && (a == b ==> Earlier(items[a], p[1..], q[1..]))
  }

  lemma {:induction false} FieldsEarlierMore(fs: seq<Field>, n: nat, p: seq<string>, q: seq<string>)
    requires n <= |fs| && FieldsEarlier(fs[..n], p, q)
    ensures FieldsEarlier(fs, p, q)
  {
    var a, b :| 0 <= a <= b < |fs[..n]| && fs[..n][a].key == p[0] && fs[..n][b].key == q[0]
                && (a == b ==> FieldEarlier(fs[..n][a], p[1..], q[1..]));
    assert fs[a].key == p[0] && fs[b].key == q[0];
  }

  lemma {:induction false} ItemsEarlierMore(items: seq<Json>, n: nat, p: seq<string>, q: seq<string>)
    requires n <= |items| && ItemsEarlier(items[..n], p, q)
    ensures ItemsEarlier(items, p, q)
  {
    var a, b :| 0 <= a <= b < |items[..n]| && ToDecimal(a) == p[0] && ToDecimal(b) == q[0]
                && (a == b ==> Earlier(items[..n][a], p[1..], q[1..]));
    assert items[a] == items[..n][a];
  }

  lemma {:induction false} UnderTail(seg: string, ls: seq<Leaf>, i: nat)
    requires i < |ls|
    ensures Under(seg, ls)[i].path != [] && Under(seg, ls)[i].path[1..] == ls[i].path
  {
  }

  /** Leaves are emitted in the order of the document. */
  lemma {:induction false} LeavesInOrder(v: Json, i: nat, j: nat)
    requires Supported(v) && i < j < |Leaves(v)|
    ensures Earlier(v, Leaves(v)[i].path, Leaves(v)[j].path)
    decreases v, 1
  {
    FieldsInOrder(v.fields, i, j);
  }

  lemma {:induction false} FieldsInOrder(fs: seq<Field>, i: nat, j: nat)
    requires forall k :: 0 <= k < |fs| ==> FieldSupported(fs[k])
    requires i < j < |FieldsLeaves(fs)|
    ensures FieldsEarlier(fs, FieldsLeaves(fs)[i].path, FieldsLeaves(fs)[j].path)
    decreases fs
  {
    var n := |fs| - 1;
    var before, last := FieldsLeaves(fs[..n]), FieldLeaves(fs[n]);
    var x, y := FieldsLeaves(fs)[i], FieldsLeaves(fs)[j];
    if j < |before| {
      FieldsInOrder(fs[..n], i, j);
      FieldsEarlierMore(fs, n, x.path, y.path);
    } else {
      assert y == last[j - |before|] && y in last;
      FieldReach(fs[n], y.path, y.text);
      if i < |before| {
        assert x == before[i] && x in before;
        FieldsReach(fs[..n], x.path, x.text);
        var a :| 0 <= a < |fs[..n]| && fs[..n][a].key == x.path[0] && FieldReaches(fs[..n][a], x.path[1..], x.text);
        assert fs[a].key == x.path[0];
      } else {
        assert x == last[i - |before|] && x in last;
        FieldReach(fs[n], x.path, x.text);
        FieldInOrder(fs[n], i - |before|, j - |before|);
      }
    }
  }

  lemma {:induction false} FieldInOrder(f: Field, i: nat, j: nat)
    requires FieldSupported(f) && i < j < |FieldLeaves(f)|
    ensures FieldLeaves(f)[i].path != [] && FieldLeaves(f)[j].path != []
    ensures FieldEarlier(f, FieldLeaves(f)[i].path[1..], FieldLeaves(f)[j].path[1..])
    decreases f
  {
    match f.value
    case Object(_) =>
      UnderTail(f.key, Leaves(f.value), i);
      UnderTail(f.key, Leaves(f.value), j);
      LeavesInOrder(f.value, i, j);
    case Array(items) =>
      UnderTail(f.key, ItemsLeaves(items), i);
      UnderTail(f.key, ItemsLeaves(items), j);
      ItemsInOrder(items, i, j);
    case _ =>
  }

  lemma {:induction false} ItemsInOrder(items: seq<Json>, i: nat, j: nat)
    requires forall k :: 0 <= k < |items| ==> Supported(items[k])
    requires i < j < |ItemsLeaves(items)|
    ensures ItemsEarlier(items, ItemsLeaves(items)[i].path, ItemsLeaves(items)[j].path)
    decreases items
  {
    var n := |items| - 1;
    var before, last := ItemsLeaves(items[..n]), Under(ToDecimal(n), Leaves(items[n]));
    var x, y := ItemsLeaves(items)[i], ItemsLeaves(items)[j];
    if j < |before| {
      ItemsInOrder(items[..n], i, j);
      ItemsEarlierMore(items, n, x.path, y.path);
    } else {
      assert y == last[j - |before|];
      UnderTail(ToDecimal(n), Leaves(items[n]), j - |before|);
      if i < |before| {
        assert x == before[i] && x in before;
        ItemsReach(items[..n], x.path, x.text);
        var a :| 0 <= a < |items[..n]| && x.path[0] == ToDecimal(a) && Reaches(items[..n][a], x.path[1..], x.text);
        assert ToDecimal(a) == x.path[0] && a < n;
      } else {
        assert x == last[i - |before|];
        UnderTail(ToDecimal(n), Leaves(items[n]), i - |before|);
        LeavesInOrder(items[n], i - |before|, j - |before|);
      }
    }
  }

  // ---------------------------------------------------------------- distinct paths

  /** Keys are distinct within each object, as JSON maps keep them. */
  ghost predicate DistinctKeys(v: Json) {
    match v
    case Object(fields) =>
      && (forall i, j :: 0 <= i < j < |fields| ==> fields[i].key != fields[j].key)
      && (forall i :: 0 <= i < |fields| ==> DistinctKeys(fields[i].value))
    case Array(items) => forall j :: 0 <= j < |items| ==> DistinctKeys(items[j])
    case _ => true
  }

  ghost predicate DistinctPaths(ls: seq<Leaf>) {
    forall i, j :: 0 <= i < j < |ls| ==> ls[i].path != ls[j].path
  }

  /** Every path starts with `seg`. */
  ghost predicate StartWith(ls: seq<Leaf>, segs: set<string>) {
    forall i :: 0 <= i < |ls| ==> ls[i].path != [] && ls[i].path[0] in segs
  }

  lemma {:induction false} UnderDistinct(seg: string, ls: seq<Leaf>)
    requires DistinctPaths(ls)
    ensures DistinctPaths(Under(seg, ls)) && StartWith(Under(seg, ls), {seg})
  {
    var u := Under(seg, ls);
    forall i, j | 0 <= i < j < |u| ensures u[i].path != u[j].path {
      assert u[i].path[1..] == ls[i].path && u[j].path[1..] == ls[j].path;
    }
  }

  lemma {:induction false} ConcatDistinct(a: seq<Leaf>, sa: set<string>, b: seq<Leaf>, sb: set<string>)
    requires DistinctPaths(a) && StartWith(a, sa) && DistinctPaths(b) && StartWith(b, sb) && sa !! sb
    ensures DistinctPaths(a + b) && StartWith(a + b, sa + sb)
  {
  }

  lemma {:induction false} LeavesDistinct(v: Json)
    requires Supported(v) && DistinctKeys(v)
    ensures DistinctPaths(Leaves(v))
    decreases v, 1
  {
    FieldsDistinct(v.fields);
  }

  function Keys(fs: seq<Field>): set<string> {
    set i | 0 <= i < |fs| :: fs[i].key
  }

  lemma {:induction false} FieldsDistinct(fs: seq<Field>)
    requires forall i :: 0 <= i < |fs| ==> FieldSupported(fs[i]) && DistinctKeys(fs[i].value)
    requires forall i, j :: 0 <= i < j < |fs| ==> fs[i].key != fs[j].key
    ensures DistinctPaths(FieldsLeaves(fs)) && StartWith(FieldsLeaves(fs), Keys(fs))
    decreases fs
  {
    if fs != [] {
      var n := |fs| - 1;
      FieldsDistinct(fs[..n]);
      FieldDistinct(fs[n]);
      forall k | k in Keys(fs[..n]) ensures k in Keys(fs) && k != fs[n].key {
        var i :| 0 <= i < n && fs[..n][i].key == k;
        assert fs[i].key == k;
      }
      ConcatDistinct(FieldsLeaves(fs[..n]), Keys(fs[..n]), FieldLeaves(fs[n]), {fs[n].key});
      assert fs[n].key in Keys(fs);
    }
  }

  lemma {:induction false} FieldDistinct(f: Field)
    requires FieldSupported(f) && DistinctKeys(f.value)
    ensures DistinctPaths(FieldLeaves(f)) && StartWith(FieldLeaves(f), {f.key})
    decreases f
  {
    match f.value
    case Object(_) =>
      LeavesDistinct(f.value);
      UnderDistinct(f.key, Leaves(f.value));
    case Array(items) =>
      ItemsDistinct(items);
      UnderDistinct(f.key, ItemsLeaves(items));
    case _ =>
  }

  function Indices(n: nat): set<string> {
    set j | 0 <= j < n :: ToDecimal(j)
  }

  lemma {:induction false} ItemsDistinct(items: seq<Json>)
    requires forall j :: 0 <= j < |items| ==> Supported(items[j]) && DistinctKeys(items[j])
    ensures DistinctPaths(ItemsLeaves(items)) && StartWith(ItemsLeaves(items), Indices(|items|))
    decreases items
  {
    if items != [] {
      var n := |items| - 1;
      ItemsDistinct(items[..n]);
      LeavesDistinct(items[n]);
      UnderDistinct(ToDecimal(n), Leaves(items[n]));
      forall k | k in Indices(n) ensures k in Indices(n + 1) && k != ToDecimal(n) {
        var j :| 0 <= j < n && ToDecimal(j) == k;
        if ToDecimal(j) == ToDecimal(n) {
          ToDecimalInjective(j, n);
        }
      }
      ConcatDistinct(ItemsLeaves(items[..n]), Indices(n), Under(ToDecimal(n), Leaves(items[n])), {ToDecimal(n)});
      assert ToDecimal(n) in Indices(n + 1);
    }
  }

  // ---------------------------------------------------------------- distinct query keys

  /** The key contains a closing bracket directly followed by an opening one. */
  ghost predicate HasBracketPair(k: string) {
    exists i :: 0 <= i < |k| - 1 && k[i] == ']' && k[i + 1] == '['
  }

  ghost predicate CleanPath(p: seq<string>) {
    forall i :: 0 <= i < |p| ==> !HasBracketPair(p[i])
  }

  ghost predicate CleanKeys(v: Json) {
    match v
    case Object(fields) =>
      forall i :: 0 <= i < |fields| ==> !HasBracketPair(fields[i].key) && CleanKeys(fields[i].value)
    case Array(items) => forall j :: 0 <= j < |items| ==> CleanKeys(items[j])
    case _ => true
  }

  lemma {:induction false} ReachesClean(v: Json, p: seq<string>, t: string)
    requires CleanKeys(v) && Reaches(v, p, t)
    ensures CleanPath(p)
    decreases |p|
  {
    var i :| 0 <= i < |v.fields| && v.fields[i].key == p[0] && FieldReaches(v.fields[i], p[1..], t);
    var f, rest := v.fields[i], p[1..];
    assert p == [p[0]] + rest;
    match f.value
    case Object(_) => ReachesClean(f.value, rest, t);
    case Array(items) =>
      var j :| 0 <= j < |items| && rest[0] == ToDecimal(j) && Reaches(items[j], rest[1..], t);
      ReachesClean(items[j], rest[1..], t);
      assert rest == [rest[0]] + rest[1..];
      assert forall k :: 0 <= k < |rest[0]| ==> IsDigit(rest[0][k]);
    case _ =>
  }

  lemma {:induction false} RenderPrefix(prefix: string, path: seq<string>)
    ensures Render(prefix, path) == prefix + Render("", path)
    decreases path
  {
    if path != [] {
      RenderPrefix(prefix + "[" + path[0] + "]", path[1..]);
      RenderPrefix("" + "[" + path[0] + "]", path[1..]);
    }
  }

  /** A rendered path is its first segment in brackets and the rendered rest. */
  lemma {:induction false} RenderStep(path: seq<string>)
    requires path != []
    ensures Render("", path) == "[" + path[0] + "]" + Render("", path[1..])
    ensures Render("", path)[0] == '['
  {
    RenderPrefix("" + "[" + path[0] + "]", path[1..]);
  }

  /** If two rendered paths agree and one first segment is longer, it holds a bracket pair. */
  lemma {:induction false} LongerSegment(a: string, x: seq<string>, b: string, y: seq<string>)
    requires "[" + a + "]" + Render("", x) == "[" + b + "]" + Render("", y) && |a| < |b|
    ensures HasBracketPair(b)
  {
    var s := "[" + a + "]" + Render("", x);
    assert s[|a| + 1] == ']' && s[|a| + 1] == b[|a|];
    assert x != [] by { assert |s| >= |b| + 2; }
    RenderStep(x);
    assert s[|a| + 2] == '[';
    assert s[|a| + 2] == if |a| + 1 < |b| then b[|a| + 1] else ']';
  }

  lemma {:induction false} RenderInjective(p: seq<string>, q: seq<string>)
    requires CleanPath(p) && CleanPath(q) && Render("", p) == Render("", q)
    ensures p == q
    decreases p
  {
    if p != [] { RenderStep(p); }
    if q != [] { RenderStep(q); }
    if p != [] && q != [] {
      if |p[0]| < |q[0]| {
        LongerSegment(p[0], p[1..], q[0], q[1..]);
      } else if |q[0]| < |p[0]| {
        LongerSegment(q[0], q[1..], p[0], p[1..]);
      }
      var s, n := Render("", p), |p[0]|;
      assert s[1..n + 1] == p[0] && s[1..n + 1] == q[0];
      assert s[n + 2..] == Render("", p[1..]) && s[n + 2..] == Render("", q[1..]);
      RenderInjective(p[1..], q[1..]);
      assert p == [p[0]] + p[1..] && q == [q[0]] + q[1..];
    }
  }

  /** All emitted query keys are distinct when no object key contains a bracket pair. */
  lemma {:induction false} EmittedKeysDistinct(prefix: string, v: Json, i: nat, j: nat)
    requires Supported(v) && DistinctKeys(v) && CleanKeys(v) && i < j < |Leaves(v)|
    ensures Rendered(prefix, Leaves(v))[i].0 != Rendered(prefix, Leaves(v))[j].0
  {
    var ls := Leaves(v);
    LeavesDistinct(v);
    assert ls[i] in ls && ls[j] in ls;
    LeavesReach(v, ls[i].path, ls[i].text);
    LeavesReach(v, ls[j].path, ls[j].text);
    ReachesClean(v, ls[i].path, ls[i].text);
    ReachesClean(v, ls[j].path, ls[j].text);
    RenderPrefix(prefix, ls[i].path);
    RenderPrefix(prefix, ls[j].path);
    if Render(prefix, ls[i].path) == Render(prefix, ls[j].path) {
      assert Render("", ls[i].path) == Render(prefix, ls[i].path)[|prefix|..];
      assert Render("", ls[j].path) == Render(prefix, ls[j].path)[|prefix|..];
      RenderInjective(ls[i].path, ls[j].path);
    }
  }

  lemma {:induction false} OneScalar(k: string)
    ensures var fs := [Field(k, Null)]; FieldSupported(fs[0]) && FieldsLeaves(fs) == [Leaf([k], "null")]
  {
    var fs := [Field(k, Null)];
    assert FieldLeaves(fs[0]) == [Leaf([k], "null")];
    assert FieldsLeaves(fs[..0]) == [];
    assert FieldsLeaves(fs) == FieldsLeaves(fs[..0]) + FieldLeaves(fs[0]);
  }

  lemma {:induction false} SameRender(prefix: string, a: string, b: string)
    ensures Render(prefix, [a + "][" + b]) == Render(prefix, [a, b])
  {
    var k, ab := a + "][" + b, [a, b];
    assert Render(prefix, [k]) == prefix + "[" + k + "]" by { assert [k][1..] == []; }
    assert Render(prefix, ab) == Render(prefix + "[" + a + "]", [b]) by { assert ab[1..] == [b]; }
    assert Render(prefix + "[" + a + "]", [b]) == prefix + "[" + a + "]" + "[" + b + "]" by { assert [b][1..] == []; }
    assert "[" + k + "]" == "[" + a + "]" + "[" + b + "]";
  }

  /** Every key with a bracket pair occurs in a document whose query keys collide. */
  lemma {:induction false} BracketPairCollides(prefix: string, k: string) returns (v: Json)
    requires HasBracketPair(k)
    ensures Supported(v) && DistinctKeys(v) && v.fields != [] && v.fields[0].key == k
    ensures |Leaves(v)| == 2 && Rendered(prefix, Leaves(v))[0].0 == Rendered(prefix, Leaves(v))[1].0
  {
    var i :| 0 <= i < |k| - 1 && k[i] == ']' && k[i + 1] == '[';
    var a, b := k[..i], k[i + 2..];
    assert k == a + "][" + b;
    var inner := Object([Field(b, Null)]);
    var outer := [Field(k, Null), Field(a, inner)];
    v := Object(outer);
    OneScalar(b);
    OneScalar(k);
    assert outer[..1] == [Field(k, Null)];
    assert FieldLeaves(outer[1]) == [Leaf([a, b], "null")] by {
      assert [a] + [b] == [a, b];
    }
    assert Leaves(v) == [Leaf([k], "null"), Leaf([a, b], "null")];
    SameRender(prefix, a, b);
  }
}
