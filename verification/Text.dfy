/** Splitting and joining of strings, as `str::split`, `str::split_once` and `join` do it. */
module Text {
  import opened Wrappers

  function Join(ws: seq<string>, sep: string): string {
    if ws == [] then ""
    else if |ws| == 1 then ws[0]
    else ws[0] + sep + Join(ws[1..], sep)
  }

  /** The pieces after one more character in front. */
  function PushFront(c: char, d: char, r: seq<string>): (q: seq<string>)
    requires r != []
    ensures |q| >= 1
  {
    if c == d then [[]] + r else [[c] + r[0]] + r[1..]
  }

  /** The pieces between the occurrences of `d`; there is always at least one. */
  function Split(s: string, d: char): (r: seq<string>)
    ensures |r| >= 1
  {
    if s == [] then [[]] else PushFront(s[0], d, Split(s[1..], d))
  }

  lemma {:induction false} PushFrontAppend(c: char, d: char, r: seq<string>, q: seq<string>)
    requires r != []
    ensures PushFront(c, d, r + q) == PushFront(c, d, r) + q
  {
    assert (r + q)[1..] == r[1..] + q;
  }

  /** What comes before and after the first `d`. */
  function SplitOnce(s: string, d: char): (r: Option<(string, string)>)
    ensures r.None? <==> d !in s
    ensures r.Some? ==> d !in r.value.0 && s == r.value.0 + [d] + r.value.1
  {
    if s == [] then None
    else if s[0] == d then Some(([], s[1..]))
    else
      match SplitOnce(s[1..], d)
      case None => None
      case Some((a, b)) => Some(([s[0]] + a, b))
  }

  lemma {:induction false} SplitOnceAt(a: string, d: char, b: string)
    requires d !in a
    ensures SplitOnce(a + [d] + b, d) == Some((a, b))
  {
    var s := a + [d] + b;
    if a == [] {
      assert s[1..] == b;
    } else {
      SplitOnceAt(a[1..], d, b);
      assert s[1..] == a[1..] + [d] + b;
      assert a == [a[0]] + a[1..];
    }
  }

  lemma {:induction false} SplitNone(a: string, d: char)
    requires d !in a
    ensures Split(a, d) == [a]
  {
    if a != [] {
      SplitNone(a[1..], d);
      assert a == [a[0]] + a[1..];
    }
  }

  lemma {:induction false} SplitPieces(s: string, d: char)
    ensures forall i :: 0 <= i < |Split(s, d)| ==> d !in Split(s, d)[i]
  {
    if s != [] {
      SplitPieces(s[1..], d);
    }
  }

  lemma {:induction false} SplitAt(a: string, d: char, b: string)
    ensures Split(a + [d] + b, d) == Split(a, d) + Split(b, d)
  {
    var s := a + [d] + b;
    if a == [] {
      assert s[1..] == b;
    } else {
      SplitAt(a[1..], d, b);
      assert s[1..] == a[1..] + [d] + b;
      PushFrontAppend(a[0], d, Split(a[1..], d), Split(b, d));
    }
  }

  /** Joining and splitting on a character that no piece contains are inverse. */
  lemma {:induction false} SplitJoin(ws: seq<string>, d: char)
    requires ws != [] && forall i :: 0 <= i < |ws| ==> d !in ws[i]
    ensures Split(Join(ws, [d]), d) == ws
  {
    SplitNone(ws[0], d);
    if |ws| > 1 {
      SplitJoin(ws[1..], d);
      SplitAt(ws[0], d, Join(ws[1..], [d]));
      assert ws == [ws[0]] + ws[1..];
    }
  }

  lemma {:induction false} JoinSplit(s: string, d: char)
    ensures Join(Split(s, d), [d]) == s
  {
    if s != [] {
      var r := Split(s[1..], d);
      JoinSplit(s[1..], d);
      if s[0] == d {
        assert Split(s, d)[1..] == r;
      } else {
        assert Split(s, d)[1..] == r[1..];
      }
      assert s == [s[0]] + s[1..];
    }
  }

  /** A last piece may itself contain the delimiter: it splits further. */
  lemma {:induction false} SplitJoinTail(lead: seq<string>, x: string, d: char)
    requires forall i :: 0 <= i < |lead| ==> d !in lead[i]
    ensures Split(Join(lead + [x], [d]), d) == lead + Split(x, d)
  {
    var ws := lead + [x];
    if lead == [] {
      assert ws == [x];
    } else {
      assert ws[1..] == lead[1..] + [x];
      SplitJoinTail(lead[1..], x, d);
      SplitAt(lead[0], d, Join(ws[1..], [d]));
      SplitNone(lead[0], d);
      assert lead == [lead[0]] + lead[1..];
    }
  }

  /** Text appended to the last piece is text appended to the whole. */
  lemma {:induction false} JoinTail(lead: seq<string>, x: string, y: string, sep: string)
    ensures Join(lead + [x + y], sep) == Join(lead + [x], sep) + y
  {
    if lead == [] {
      assert lead + [x + y] == [x + y] && lead + [x] == [x];
    } else {
      assert (lead + [x + y])[1..] == lead[1..] + [x + y];
      assert (lead + [x])[1..] == lead[1..] + [x];
      JoinTail(lead[1..], x, y, sep);
    }
  }

  lemma {:induction false} JoinLacks(ws: seq<string>, sep: string, c: char)
    requires c !in sep && forall i :: 0 <= i < |ws| ==> c !in ws[i]
    ensures c !in Join(ws, sep)
  {
    if |ws| > 1 {
      JoinLacks(ws[1..], sep, c);
    }
  }

  lemma {:induction false} InJoin(ws: seq<string>, sep: string, c: char)
    requires c !in Join(ws, sep)
    ensures forall i :: 0 <= i < |ws| ==> c !in ws[i]
  {
    if |ws| > 1 {
      var rest := Join(ws[1..], sep);
      assert Join(ws, sep) == ws[0] + sep + rest;
      assert c !in ws[0] + sep + rest;
      assert c !in rest;
      InJoin(ws[1..], sep, c);
      assert ws == [ws[0]] + ws[1..];
    }
  }

  lemma {:induction false} SplitCount(s: string, d: char)
    ensures |Split(s, d)| == 1 <==> d !in s
  {
    if s != [] {
      SplitCount(s[1..], d);
      assert s == [s[0]] + s[1..];
    }
  }

  lemma {:induction false} JoinTwo(x: string, y: string, sep: string)
    ensures Join([x, y], sep) == x + sep + y
  {
    var both := [x, y];
    assert both[1..] == [y];
  }

  lemma {:induction false} JoinThree(x: string, y: string, z: string, sep: string)
    ensures Join([x, y, z], sep) == (x + sep + y) + (sep + z)
  {
    var all := [x, y, z];
    assert all[1..] == [y, z];
    JoinTwo(y, z, sep);
    assert x + sep + (y + sep + z) == (x + sep + y) + (sep + z);
  }

  lemma {:induction false} JoinFour(w: string, x: string, y: string, z: string, sep: string)
    ensures Join([w, x, y, z], sep) == w + sep + (x + sep + y) + (sep + z)
  {
    var all := [w, x, y, z];
    assert all[1..] == [x, y, z];
    JoinThree(x, y, z, sep);
    assert w + sep + ((x + sep + y) + (sep + z)) == w + sep + (x + sep + y) + (sep + z);
  }
}
