/** How a collection name becomes the path the tree files it under. */
module CollectionNames {
  import opened Wrappers
  import opened Uuids
  import opened PathOrder
  import opened CollectionItems
  import opened CollectionTree
  import opened TreeProperties
  import opened Text

  const DELIMITER: char := '/'

  /** Drops the empty pieces. */
  function NonEmptyPieces(ws: seq<string>): seq<string> {
    if ws == [] then [] else (if ws[0] == "" then [] else [ws[0]]) + NonEmptyPieces(ws[1..])
  }

  function CollectionPath(name: string): Path {
    NonEmptyPieces(Split(name, DELIMITER))
  }

  function NilId(): Uuid {
    seq(16, i => 0)
  }

  /** What the tree reads of a collection. */
  datatype Collection = Collection(id: Option<Uuid>, name: string)

  /** The tree item of a collection; one without an id gets the nil id. */
  function CollectionItem(c: Collection): Item {
    var p := CollectionPath(c.name);
    Item(if c.id.Some? then c.id.value else NilId(), if p == [] then "" else p[|p| - 1], p)
  }

  function TreeItems(cs: seq<Collection>): (r: seq<Item>)
    ensures |r| == |cs| && forall i :: 0 <= i < |cs| ==> r[i] == CollectionItem(cs[i])
  {
    seq(|cs|, i requires 0 <= i < |cs| => CollectionItem(cs[i]))
  }

  lemma {:induction false} PiecesEmpty(ws: seq<string>)
    ensures NonEmptyPieces(ws) == [] <==> forall i :: 0 <= i < |ws| ==> ws[i] == ""
  {
    if ws != [] {
      PiecesEmpty(ws[1..]);
      if forall i :: 0 <= i < |ws[1..]| ==> ws[1..][i] == "" {
        forall i | 1 <= i < |ws| ensures ws[i] == "" {
          assert ws[1..][i - 1] == "";
        }
      }
    }
  }

  /** The path is empty, which the tree cannot file, exactly when the name has only delimiters. */
  lemma {:induction false} EmptyPathIff(name: string)
    ensures CollectionPath(name) == [] <==> forall i :: 0 <= i < |name| ==> name[i] == '/'
  {
    PiecesEmpty(Split(name, DELIMITER));
    if name != [] {
      EmptyPathIff(name[1..]);
      var r := Split(name[1..], DELIMITER);
      PiecesEmpty(r);
      assert name == [name[0]] + name[1..];
      if name[0] == DELIMITER {
        assert Split(name, DELIMITER) == [[]] + r;
        assert NonEmptyPieces([[]] + r) == NonEmptyPieces(r);
      } else {
        assert Split(name, DELIMITER)[0] != "";
      }
    }
  }

  predicate OnlyDelimiters(name: string) {
    forall i :: 0 <= i < |name| ==> name[i] == '/'
  }

  /** Collections can be filed in a tree exactly when no name has only delimiters. */
  lemma {:induction false} TreeBuildableIff(cs: seq<Collection>)
    ensures NonEmptyPaths(TreeItems(cs)) <==> forall i :: 0 <= i < |cs| ==> !OnlyDelimiters(cs[i].name)
  {
    var items := TreeItems(cs);
    forall i | 0 <= i < |cs| ensures items[i].path == [] <==> OnlyDelimiters(cs[i].name) {
      EmptyPathIff(cs[i].name);
    }
    if NonEmptyPaths(items) {
      forall i | 0 <= i < |cs| ensures !OnlyDelimiters(cs[i].name) {
        assert items[i].path != [];
      }
    }
  }

  predicate IsNil(id: Option<Uuid>) {
    id.None? || id.value == NilId()
  }

  /** The tree item of a collection has its id, or sixteen zero bytes without one, and its path. */
  lemma {:induction false} TreeItemText(c: Collection)
    ensures c.id.Some? ==> CollectionItem(c).id == c.id.value
    ensures c.id.None? ==> forall i :: 0 <= i < 16 ==> CollectionItem(c).id[i] == 0
    ensures CollectionItem(c).path == CollectionPath(c.name)
    ensures CollectionItem(c).path != [] ==> CollectionItem(c).shortName == CollectionItem(c).path[|CollectionItem(c).path| - 1]
    ensures CollectionItem(c).path == [] ==> CollectionItem(c).shortName == ""
  {
  }

  /** Tree ids are unique exactly when given ids are and at most one collection has none or the nil id. */
  lemma {:induction false} TreeIdsUniqueIff(cs: seq<Collection>)
    ensures UniqueIds(TreeItems(cs)) <==>
            forall i, j :: 0 <= i < j < |cs| ==> cs[i].id != cs[j].id && !(IsNil(cs[i].id) && IsNil(cs[j].id))
  {
    var items := TreeItems(cs);
    forall i, j | 0 <= i < j < |cs|
      ensures items[i].id == items[j].id <==> cs[i].id == cs[j].id || (IsNil(cs[i].id) && IsNil(cs[j].id))
    {
    }
    if UniqueIds(items) {
      forall i, j | 0 <= i < j < |cs| ensures items[i].id != items[j].id { }
    }
  }

  lemma {:induction false} PiecesKept(ws: seq<string>)
    requires forall i :: 0 <= i < |ws| ==> ws[i] != ""
    ensures NonEmptyPieces(ws) == ws
  {
    if ws != [] {
      PiecesKept(ws[1..]);
    }
  }

  /** Every list of non-empty segments is the path of the name that joins them. */
  lemma {:induction false} PathOfJoined(segments: Path)
    requires segments != []
    requires forall i :: 0 <= i < |segments| ==> segments[i] != "" && '/' !in segments[i]
    ensures CollectionPath(Join(segments, "/")) == segments
  {
    SplitJoin(segments, DELIMITER);
    PiecesKept(segments);
  }
}
