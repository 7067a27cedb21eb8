/** The lexicographic order of paths that the collection tree is built from. */
module PathOrder {

  type Path = seq<string>

  ghost predicate TotalOrder<T(!new)>(leq: (T, T) -> bool) {
    && (forall x, y :: leq(x, y) || leq(y, x))
    && (forall x, y :: leq(x, y) && leq(y, x) ==> x == y)
    && (forall x, y, z :: leq(x, y) && leq(y, z) ==> leq(x, z))
  }

  /** Lexicographic comparison of sequences, element by element, shorter first on a tie. */
  predicate Lex<T(==)>(leq: (T, T) -> bool, a: seq<T>, b: seq<T>) {
    if a == [] then true
    else if b == [] then false
    else if a[0] == b[0] then Lex(leq, a[1..], b[1..])
    else leq(a[0], b[0])
  }

  predicate CharLeq(a: char, b: char) { a <= b }

  predicate StringLeq(a: string, b: string) { Lex(CharLeq, a, b) }

  predicate PathLeq(a: Path, b: Path) { Lex(StringLeq, a, b) }

  lemma {:induction false} LexConnex<T(!new)>(leq: (T, T) -> bool, a: seq<T>, b: seq<T>)
    requires TotalOrder(leq)
    ensures Lex(leq, a, b) || Lex(leq, b, a)
  {
    if a != [] && b != [] && a[0] == b[0] {
      LexConnex(leq, a[1..], b[1..]);
    }
  }

  lemma {:induction false} LexAntisymmetric<T(!new)>(leq: (T, T) -> bool, a: seq<T>, b: seq<T>)
    requires TotalOrder(leq)
    requires Lex(leq, a, b) && Lex(leq, b, a)
    ensures a == b
  {
    if a != [] && b != [] && a[0] == b[0] {
      LexAntisymmetric(leq, a[1..], b[1..]);
      assert a == [a[0]] + a[1..];
      assert b == [b[0]] + b[1..];
    }
  }

  lemma {:induction false} LexTransitive<T(!new)>(leq: (T, T) -> bool, a: seq<T>, b: seq<T>, c: seq<T>)
    requires TotalOrder(leq)
    requires Lex(leq, a, b) && Lex(leq, b, c)
    ensures Lex(leq, a, c)
  {
    if a != [] && b != [] && c != [] && a[0] == b[0] == c[0] {
      LexTransitive(leq, a[1..], b[1..], c[1..]);
    }
  }

  /** A total order on elements lifts to a total order on sequences. */
  lemma {:induction false} LexTotalOrder<T(!new)>(leq: (T, T) -> bool)
    requires TotalOrder(leq)
    ensures forall a, b: seq<T> :: Lex(leq, a, b) || Lex(leq, b, a)
    ensures forall a, b: seq<T> :: Lex(leq, a, b) && Lex(leq, b, a) ==> a == b
    ensures forall a, b, c: seq<T> :: Lex(leq, a, b) && Lex(leq, b, c) ==> Lex(leq, a, c)
  {
    forall a, b: seq<T> ensures Lex(leq, a, b) || Lex(leq, b, a) {
      LexConnex(leq, a, b);
    }
    forall a, b: seq<T> | Lex(leq, a, b) && Lex(leq, b, a) ensures a == b {
      LexAntisymmetric(leq, a, b);
    }
    forall a, b, c: seq<T> | Lex(leq, a, b) && Lex(leq, b, c) ensures Lex(leq, a, c) {
      LexTransitive(leq, a, b, c);
    }
  }

  lemma {:induction false} StringTotalOrder()
    ensures TotalOrder(StringLeq)
  {
    assert TotalOrder(CharLeq);
    LexTotalOrder(CharLeq);
  }

  /** Paths are totally ordered by the comparison the tree sorts with. */
  lemma {:induction false} PathTotalOrder()
    ensures TotalOrder(PathLeq)
  {
    StringTotalOrder();
    LexTotalOrder(StringLeq);
  }

  /** Every prefix sorts no later than its extensions. */
  lemma {:induction false} PrefixFirst(p: Path, q: Path)
    requires p <= q
    ensures PathLeq(p, q)
  {
    if p != [] {
      assert p[0] == q[0];
      PrefixFirst(p[1..], q[1..]);
    }
  }

  // ---------------------------------------------------------------- the order, spelled out

  /** Where two sequences first differ decides; without a difference the shorter one comes first. */
  lemma {:induction false} LexIff<T(!new)>(leq: (T, T) -> bool, a: seq<T>, b: seq<T>)
    ensures Lex(leq, a, b) <==>
            a <= b || exists k :: 0 <= k < |a| && k < |b| && a[..k] == b[..k] && a[k] != b[k] && leq(a[k], b[k])
  {
    if a != [] && b != [] {
      if a[0] == b[0] {
        LexIff(leq, a[1..], b[1..]);
        assert a <= b <==> a[1..] <= b[1..] by {
          assert a == [a[0]] + a[1..] && b == [b[0]] + b[1..];
        }
        if k :| 0 <= k < |a| && k < |b| && a[..k] == b[..k] && a[k] != b[k] && leq(a[k], b[k]) {
          assert a[1..][..k - 1] == a[..k][1..] && b[1..][..k - 1] == b[..k][1..];
          assert a[1..][k - 1] == a[k] && b[1..][k - 1] == b[k];
        }
        if k :| 0 <= k < |a[1..]| && k < |b[1..]| && a[1..][..k] == b[1..][..k] && a[1..][k] != b[1..][k] && leq(a[1..][k], b[1..][k]) {
          assert a[..k + 1] == [a[0]] + a[1..][..k] && b[..k + 1] == [b[0]] + b[1..][..k];
          assert a[k + 1] == a[1..][k] && b[k + 1] == b[1..][k];
        }
      } else {
        assert a[..0] == b[..0];
        assert !(a <= b);
        if k :| 0 <= k < |a| && k < |b| && a[..k] == b[..k] && a[k] != b[k] && leq(a[k], b[k]) {
          assert k > 0 ==> a[..k][0] == b[..k][0];
        }
      }
    }
  }

  /** A text is a prefix of the other, or has the smaller character where they first differ. */
  ghost predicate TextBefore(a: string, b: string) {
    a <= b || exists k :: 0 <= k < |a| && k < |b| && a[..k] == b[..k] && a[k] < b[k]
  }

  /** A path is a prefix of the other, or has the earlier segment where they first differ. */
  ghost predicate PathBefore(p: Path, q: Path) {
    p <= q || exists k :: 0 <= k < |p| && k < |q| && p[..k] == q[..k] && p[k] != q[k] && TextBefore(p[k], q[k])
  }

  lemma {:induction false} StringLeqIff(a: string, b: string)
    ensures StringLeq(a, b) <==> TextBefore(a, b)
  {
    LexIff(CharLeq, a, b);
    if k :| 0 <= k < |a| && k < |b| && a[..k] == b[..k] && a[k] != b[k] && CharLeq(a[k], b[k]) {
      assert a[k] < b[k];
    }
    if k :| 0 <= k < |a| && k < |b| && a[..k] == b[..k] && a[k] < b[k] {
      assert a[k] != b[k] && CharLeq(a[k], b[k]);
    }
  }

  /** The comparison the tree sorts with: by segments, and within the first differing one by characters. */
  lemma {:induction false} PathLeqIff(p: Path, q: Path)
    ensures PathLeq(p, q) <==> PathBefore(p, q)
  {
    LexIff(StringLeq, p, q);
    forall k | 0 <= k < |p| && k < |q| ensures StringLeq(p[k], q[k]) <==> TextBefore(p[k], q[k]) {
      StringLeqIff(p[k], q[k]);
    }
  }
}
