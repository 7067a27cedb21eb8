/** Reading hyphen-joined words back, when some list words contain hyphens themselves. */
module WordCode {
  import opened Text

  const HYPHEN: char := '-'

  function Pieces(w: string): (r: seq<string>)
    ensures |r| >= 1
  {
    Split(w, HYPHEN)
  }

  ghost predicate Listed(words: seq<string>, ws: seq<string>) {
    forall i :: 0 <= i < |ws| ==> ws[i] in words
  }

  /** No two list words start with the same hyphen-separated piece. */
  ghost predicate FirstPiecesDistinct(words: seq<string>) {
    forall i, j :: 0 <= i < j < |words| ==> Pieces(words[i])[0] != Pieces(words[j])[0]
  }

  function AllPieces(ws: seq<string>): seq<string> {
    if ws == [] then [] else Pieces(ws[0]) + AllPieces(ws[1..])
  }

  lemma {:induction false} SplitJoined(ws: seq<string>)
    requires ws != []
    ensures Split(Join(ws, [HYPHEN]), HYPHEN) == AllPieces(ws)
  {
    if |ws| == 1 {
      assert AllPieces(ws[1..]) == [];
    } else {
      SplitJoined(ws[1..]);
      SplitAt(ws[0], HYPHEN, Join(ws[1..], [HYPHEN]));
    }
  }

  lemma {:induction false} SameFirstPiece(words: seq<string>, u: string, v: string)
    requires FirstPiecesDistinct(words) && u in words && v in words
    requires Pieces(u)[0] == Pieces(v)[0]
    ensures u == v
  {
    var i :| 0 <= i < |words| && words[i] == u;
    var j :| 0 <= j < |words| && words[j] == v;
    if i != j {
      assert Pieces(words[i])[0] != Pieces(words[j])[0];
    }
  }

  lemma {:induction false} PiecesDetermine(words: seq<string>, us: seq<string>, vs: seq<string>)
    requires FirstPiecesDistinct(words) && Listed(words, us) && Listed(words, vs)
    requires AllPieces(us) == AllPieces(vs)
    ensures us == vs
  {
    if us != [] && vs != [] {
      assert Pieces(us[0])[0] == AllPieces(us)[0];
      assert Pieces(vs[0])[0] == AllPieces(vs)[0];
      SameFirstPiece(words, us[0], vs[0]);
      var n := |Pieces(us[0])|;
      assert AllPieces(us)[n..] == AllPieces(us[1..]);
      assert AllPieces(vs)[n..] == AllPieces(vs[1..]);
      PiecesDetermine(words, us[1..], vs[1..]);
      assert us == [us[0]] + us[1..] && vs == [vs[0]] + vs[1..];
    }
  }

  /** Joined text determines the words, of any number, when first pieces are distinct. */
  lemma {:induction false} JoinInjective(words: seq<string>, us: seq<string>, vs: seq<string>)
    requires FirstPiecesDistinct(words) && Listed(words, us) && Listed(words, vs)
    requires us != [] && vs != [] && Join(us, [HYPHEN]) == Join(vs, [HYPHEN])
    ensures us == vs
  {
    SplitJoined(us);
    SplitJoined(vs);
    PiecesDetermine(words, us, vs);
  }

  /** The words are pairwise different. */
  ghost predicate DistinctWords(words: seq<string>) {
    forall i, j :: 0 <= i < j < |words| ==> words[i] != words[j]
  }

  /** Distinct words are not enough: a list whose first pieces repeat can join two ways. */
  lemma {:induction false} DistinctWordsAreNotEnough()
    ensures var words, us, vs := ["a", "b-a", "a-b"], ["a", "b-a"], ["a-b", "a"];
            && DistinctWords(words) && !FirstPiecesDistinct(words)
            && Listed(words, us) && Listed(words, vs) && us != vs
            && Join(us, [HYPHEN]) == Join(vs, [HYPHEN])
  {
    var words, us, vs := ["a", "b-a", "a-b"], ["a", "b-a"], ["a-b", "a"];
    assert us[1..] == ["b-a"] && vs[1..] == ["a"];
    assert us[0] != vs[0];
    SplitNone("a", HYPHEN);
    SplitNone("b", HYPHEN);
    SplitAt("a", HYPHEN, "b");
    assert "a" + [HYPHEN] + "b" == "a-b";
    assert Pieces(words[0])[0] == Pieces(words[2])[0];
  }
}
