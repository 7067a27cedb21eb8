/** Which separators let a passphrase be read in one way only. */
module PassphraseText {
  import opened Wrappers
  import opened Text
  import opened Decimals
  import opened Passphrase

  predicate Upper(c: char) { 'A' <= c <= 'Z' }

  /** Neither a lowercase letter nor a digit. */
  predicate Foreign(c: char) { !Lower(c) && !IsDigit(c) }

  predicate EndsInDigit(p: string) {
    p != "" && IsDigit(p[|p| - 1])
  }

  /** A word of the passphrase: a letter, lowercase letters, and possibly a digit. */
  ghost predicate Shaped(p: string, capital: bool) {
    && p != "" && (if capital then Upper(p[0]) else Lower(p[0]))
    && forall i :: 1 <= i < |p| ==> Lower(p[i]) || (i == |p| - 1 && IsDigit(p[i]))
  }

  ghost predicate AllShaped(ws: seq<string>, capital: bool) {
    forall i :: 0 <= i < |ws| ==> Shaped(ws[i], capital)
  }

  /** At most one word carries the number. */
  ghost predicate OneNumber(ws: seq<string>) {
    forall i, j :: 0 <= i < j < |ws| ==> !(EndsInDigit(ws[i]) && EndsInDigit(ws[j]))
  }

  ghost predicate AllLower(s: string) {
    forall i :: 0 <= i < |s| ==> Lower(s[i])
  }

  /** Where the first character of a kind stands, or the length. */
  function First(p: char -> bool, s: string): (n: nat)
    ensures n <= |s| && forall i :: 0 <= i < n ==> !p(s[i])
    ensures n < |s| ==> p(s[n])
  {
    if s == "" || p(s[0]) then 0 else 1 + First(p, s[1..])
  }

  lemma {:induction false} FirstAfter(p: char -> bool, a: string, b: string)
    requires forall i :: 0 <= i < |a| ==> !p(a[i])
    ensures First(p, a + b) == |a| + First(p, b)
  {
    var s, n := a + b, |a| + First(p, b);
    assert forall i :: 0 <= i < n ==> s[i] == if i < |a| then a[i] else b[i - |a|];
    assert n < |s| ==> s[n] == b[n - |a|];
  }

  lemma {:induction false} FirstBefore(p: char -> bool, a: string, b: string)
    requires First(p, a) < |a|
    ensures First(p, a + b) == First(p, a)
  {
    var s, n := a + b, First(p, a);
    assert forall i :: 0 <= i <= n ==> s[i] == a[i];
  }

  /** What follows the first word. */
  function After(ws: seq<string>, sep: string): string
    requires ws != []
  {
    if |ws| == 1 then "" else sep + Join(ws[1..], sep)
  }

  lemma {:induction false} JoinFirst(ws: seq<string>, sep: string)
    requires ws != []
    ensures Join(ws, sep) == ws[0] + After(ws, sep)
  {
  }

  /** The words of a tail start with a letter. */
  lemma {:induction false} TailStarts(ws: seq<string>, sep: string, capital: bool)
    requires |ws| > 1 && AllShaped(ws, capital)
    ensures Join(ws[1..], sep) != "" && (if capital then Upper(Join(ws[1..], sep)[0]) else Lower(Join(ws[1..], sep)[0]))
  {
    JoinFirst(ws[1..], sep);
    assert Shaped(ws[1], capital);
  }

  // ---------------------------------------------------------------- the first word

  /** The same text, cut at the same place, gives the same first word. */
  lemma {:induction false} SameCut(us: seq<string>, vs: seq<string>, sep: string)
    requires us != [] && vs != [] && Join(us, sep) == Join(vs, sep) && |us[0]| == |vs[0]|
    ensures us[0] == vs[0] && After(us, sep) == After(vs, sep)
  {
    JoinFirst(us, sep);
    JoinFirst(vs, sep);
    var t := Join(us, sep);
    assert us[0] == t[..|us[0]|] == vs[0];
    assert After(us, sep) == t[|us[0]|..] == After(vs, sep);
  }

  /** Capitalized words: the next capital is in the separator or right after it. */
  lemma {:induction false} CapitalEnd(ws: seq<string>, sep: string)
    requires ws != [] && AllShaped(ws, true)
    ensures Join(ws, sep) != ""
    ensures First(Upper, Join(ws, sep)[1..]) == |ws[0]| - 1 + if |ws| == 1 then 0 else First(Upper, sep)
  {
    assert Shaped(ws[0], true);
    JoinFirst(ws, sep);
    assert Join(ws, sep)[1..] == ws[0][1..] + After(ws, sep);
    FirstAfter(Upper, ws[0][1..], After(ws, sep));
    if |ws| > 1 {
      TailStarts(ws, sep, true);
      var rest := Join(ws[1..], sep);
      if First(Upper, sep) < |sep| {
        FirstBefore(Upper, sep, rest);
      } else {
        FirstAfter(Upper, sep, rest);
      }
    }
  }

  /** Plain words: the first foreign character is the separator's. */
  lemma {:induction false} ForeignEnd(ws: seq<string>, sep: string)
    requires ws != [] && AllShaped(ws, false) && First(Foreign, sep) < |sep|
    ensures First(Foreign, Join(ws, sep)) == |ws[0]| + if |ws| == 1 then 0 else First(Foreign, sep)
  {
    assert Shaped(ws[0], false);
    JoinFirst(ws, sep);
    FirstAfter(Foreign, ws[0], After(ws, sep));
    if |ws| > 1 {
      FirstBefore(Foreign, sep, Join(ws[1..], sep));
    }
  }

  lemma {:induction false} OwnDigit(p: string, rest: string)
    requires Shaped(p, false) && EndsInDigit(p)
    ensures First(IsDigit, p + rest) == |p| - 1
  {
    var s, n := p + rest, |p| - 1;
    assert s[n] == p[n];
    assert forall i :: 0 <= i < n ==> s[i] == p[i];
  }

  /** Plain words and a digit in the separator: the first digit is the first word's own or the separator's. */
  lemma {:induction false} DigitEnd(ws: seq<string>, sep: string)
    requires ws != [] && AllShaped(ws, false) && First(IsDigit, sep) < |sep|
    ensures First(IsDigit, Join(ws, sep)) ==
            if EndsInDigit(ws[0]) then |ws[0]| - 1 else |ws[0]| + if |ws| == 1 then 0 else First(IsDigit, sep)
  {
    assert Shaped(ws[0], false);
    JoinFirst(ws, sep);
    if EndsInDigit(ws[0]) {
      OwnDigit(ws[0], After(ws, sep));
    } else {
      FirstAfter(IsDigit, ws[0], After(ws, sep));
      if |ws| > 1 {
        FirstBefore(IsDigit, sep, Join(ws[1..], sep));
      }
    }
  }

  // ---------------------------------------------------------------- a number against a separator

  lemma {:induction false} LastDigit(s: string) returns (n: nat)
    requires First(IsDigit, s) < |s|
    ensures n < |s| && IsDigit(s[n]) && forall i :: n < i < |s| ==> !IsDigit(s[i])
  {
    n := First(IsDigit, s);
    for i := n to |s|
      invariant n < |s| && IsDigit(s[n]) && forall j :: n < j < i ==> !IsDigit(s[j])
    {
      if IsDigit(s[i]) {
        n := i;
      }
    }
  }

  lemma {:induction false} DigitBound(s: string, k: nat, n: nat)
    requires k <= n < |s| && IsDigit(s[n])
    ensures First(IsDigit, s[k..]) <= n - k
  {
    assert s[k..][n - k] == s[n];
  }

  /** Text that repeats after `k` characters has its last digit among the last `k`. */
  lemma {:induction false} LastDigitLate(s: string, k: nat, n: nat)
    requires 0 < k <= |s| && s[k..] <= s
    requires n < |s| && IsDigit(s[n]) && forall i :: n < i < |s| ==> !IsDigit(s[i])
    ensures |s| - k <= n
  {
  }

  /** A separator that starts like what follows its own first digit has a digit near its end. */
  lemma {:induction false} DigitNearEnd(sep: string)
    requires First(IsDigit, sep) < |sep| && sep[First(IsDigit, sep) + 1..] <= sep
    ensures var f := First(IsDigit, sep); First(IsDigit, sep[|sep| - f - 1..]) <= f
  {
    var f := First(IsDigit, sep);
    var n := LastDigit(sep);
    LastDigitLate(sep, f + 1, n);
    DigitBound(sep, |sep| - f - 1, n);
  }

  lemma {:induction false} Overlap(sep: string, a: string, rest: string, b: string)
    requires |rest| <= |sep| && sep + a == rest + b
    ensures rest <= sep && b == sep[|rest|..] + a
  {
    var s := sep + a;
    assert s[..|rest|] == rest && s[..|rest|] == sep[..|rest|];
    assert s[|rest|..] == b && s[|rest|..] == sep[|rest|..] + a;
  }

  /** Two ways to cut one text, the first `n` characters later than the second. */
  lemma {:induction false} CutLater(u: string, a: string, v: string, sep: string, b: string, n: nat)
    requires n <= |sep| && |u| == |v| + n && u + a == v + (sep + b)
    ensures a == sep[n..] + b
  {
    var t := u + a;
    assert t[|u|..] == a;
    assert t[|v|..] == sep + b;
    assert t[|u|..] == t[|v|..][n..];
    assert (sep + b)[n..] == sep[n..] + b;
  }

  /** The rest of one reading after its number is the rest of the other after the separator's first digit. */
  lemma {:induction false} NumberShifts(us: seq<string>, vs: seq<string>, sep: string)
    requires us != [] && vs != [] && AllShaped(us, false) && AllShaped(vs, false)
    requires First(IsDigit, sep) < |sep| && EndsInDigit(us[0]) && !EndsInDigit(vs[0])
    requires Join(us, sep) == Join(vs, sep)
    ensures |us| > 1 && |vs| > 1
    ensures sep + Join(us[1..], sep) == sep[First(IsDigit, sep) + 1..] + Join(vs[1..], sep)
  {
    DigitEnd(us, sep);
    DigitEnd(vs, sep);
    JoinFirst(us, sep);
    JoinFirst(vs, sep);
    TailStarts(vs, sep, false);
    CutLater(us[0], After(us, sep), vs[0], sep, Join(vs[1..], sep), First(IsDigit, sep) + 1);
  }

  /** Cutting within a separator leaves a digit near the front of what follows. */
  lemma {:induction false} DigitNearFront(tail: string, rest: string, v: string, sep: string, b: string)
    requires First(IsDigit, sep) < |sep| && |v| <= |tail| == First(IsDigit, sep) + 1
    requires v != "" && tail + rest == v + (sep + b)
    ensures First(IsDigit, rest) < |v|
  {
    var f, n := First(IsDigit, sep), |tail| - |v|;
    CutLater(tail, rest, v, sep, b, n);
    assert rest[f - n] == sep[f];
  }

  lemma {:induction false} NumberDoesNotShift(us: seq<string>, vs: seq<string>, sep: string, tail: string)
    requires us != [] && vs != [] && AllShaped(us, false) && AllShaped(vs, false) && !EndsInDigit(us[0])
    requires First(IsDigit, sep) < |sep| && |tail| == First(IsDigit, sep) + 1
    requires First(IsDigit, tail) < |tail|
    ensures Join(vs, sep) != tail + Join(us, sep)
  {
    DigitEnd(us, sep);
    DigitEnd(vs, sep);
    JoinFirst(us, sep);
    JoinFirst(vs, sep);
    FirstBefore(IsDigit, tail, Join(us, sep));
    if |vs| > 1 && |vs[0]| <= |tail| && Join(vs, sep) == tail + Join(us, sep) {
      DigitNearFront(tail, Join(us, sep), vs[0], sep, Join(vs[1..], sep));
    }
  }

  /** A number at the end of the first word is never taken for part of a separator. */
  lemma {:induction false} NumberNotHidden(us: seq<string>, vs: seq<string>, sep: string)
    requires us != [] && vs != [] && AllShaped(us, false) && AllShaped(vs, false) && OneNumber(us)
    requires First(IsDigit, sep) < |sep| && Join(us, sep) == Join(vs, sep)
    ensures EndsInDigit(us[0]) ==> EndsInDigit(vs[0])
  {
    if EndsInDigit(us[0]) && !EndsInDigit(vs[0]) {
      NumberShifts(us, vs, sep);
      Overlap(sep, Join(us[1..], sep), sep[First(IsDigit, sep) + 1..], Join(vs[1..], sep));
      DigitNearEnd(sep);
      NumberDoesNotShift(us[1..], vs[1..], sep, sep[|sep| - First(IsDigit, sep) - 1..]);
    }
  }

  // ---------------------------------------------------------------- lists without prefixes

  /** No word of the list starts another. */
  ghost predicate PrefixFree(list: seq<string>) {
    forall x, y :: x in list && y in list && x <= y ==> x == y
  }

  /** A word without its number. */
  function Stem(p: string): string {
    if EndsInDigit(p) then p[..|p| - 1] else p
  }

  ghost predicate StemsIn(list: seq<string>, ws: seq<string>) {
    forall i :: 0 <= i < |ws| ==> Stem(ws[i]) in list
  }

  /** After the first stem a digit is its number, since words and lowercase separators start with a letter. */
  lemma {:induction false} DigitAfterStem(ws: seq<string>, sep: string)
    requires ws != [] && AllShaped(ws, false) && AllLower(sep)
    ensures Stem(ws[0]) <= Join(ws, sep)
    ensures var t, n := Join(ws, sep), |Stem(ws[0])|; EndsInDigit(ws[0]) <==> n < |t| && IsDigit(t[n])
  {
    JoinFirst(ws, sep);
    var a := After(ws, sep);
    if |ws| > 1 {
      TailStarts(ws, sep, false);
      assert Lower(a[0]);
    }
    assert !EndsInDigit(ws[0]) && a != "" ==> Join(ws, sep)[|ws[0]|] == a[0];
  }

  lemma {:induction false} PrefixFreeEnd(list: seq<string>, us: seq<string>, vs: seq<string>, sep: string)
    requires us != [] && vs != [] && AllShaped(us, false) && AllShaped(vs, false) && AllLower(sep)
    requires PrefixFree(list) && StemsIn(list, us) && StemsIn(list, vs) && Join(us, sep) == Join(vs, sep)
    ensures |us[0]| == |vs[0]|
  {
    DigitAfterStem(us, sep);
    DigitAfterStem(vs, sep);
    var x, y := Stem(us[0]), Stem(vs[0]);
    assert x in list && y in list;
    assert x <= y || y <= x;
  }

  // ---------------------------------------------------------------- all words

  /** What lets the text be read in one way: capitals, the separator, or the list. */
  ghost predicate Readable(list: seq<string>, sep: string, capital: bool) {
    capital || !AllLower(sep) || PrefixFree(list)
  }

  lemma {:induction false} FirstWordSame(list: seq<string>, us: seq<string>, vs: seq<string>, sep: string, capital: bool)
    requires us != [] && vs != [] && AllShaped(us, capital) && AllShaped(vs, capital) && OneNumber(us) && OneNumber(vs)
    requires !capital ==> StemsIn(list, us) && StemsIn(list, vs)
    requires Readable(list, sep, capital) && Join(us, sep) == Join(vs, sep)
    ensures us[0] == vs[0] && (|us| == 1 <==> |vs| == 1)
  {
    assert Shaped(us[0], capital) && Shaped(vs[0], capital);
    JoinFirst(us, sep);
    JoinFirst(vs, sep);
    if |us| > 1 { TailStarts(us, sep, capital); }
    if |vs| > 1 { TailStarts(vs, sep, capital); }
    if capital {
      CapitalEnd(us, sep);
      CapitalEnd(vs, sep);
    } else if AllLower(sep) {
      PrefixFreeEnd(list, us, vs, sep);
    } else if First(Foreign, sep) < |sep| {
      ForeignEnd(us, sep);
      ForeignEnd(vs, sep);
    } else {
      var i :| 0 <= i < |sep| && !Lower(sep[i]);
      assert !Foreign(sep[i]);
      assert First(IsDigit, sep) < |sep|;
      NumberNotHidden(us, vs, sep);
      NumberNotHidden(vs, us, sep);
      DigitEnd(us, sep);
      DigitEnd(vs, sep);
    }
    SameCut(us, vs, sep);
  }

  lemma {:induction false} TailSame(us: seq<string>, vs: seq<string>, sep: string)
    requires |us| > 1 && |vs| > 1 && After(us, sep) == After(vs, sep)
    ensures Join(us[1..], sep) == Join(vs[1..], sep)
  {
    var a := After(us, sep);
    assert Join(us[1..], sep) == a[|sep|..] == Join(vs[1..], sep);
  }

  /** The joined text determines the words. */
  lemma {:induction false} JoinDetermines(list: seq<string>, us: seq<string>, vs: seq<string>, sep: string, capital: bool)
    requires us != [] && vs != [] && AllShaped(us, capital) && AllShaped(vs, capital) && OneNumber(us) && OneNumber(vs)
    requires !capital ==> StemsIn(list, us) && StemsIn(list, vs)
    requires Readable(list, sep, capital) && Join(us, sep) == Join(vs, sep)
    ensures us == vs
    decreases |us|
  {
    FirstWordSame(list, us, vs, sep, capital);
    SameCut(us, vs, sep);
    if |us| > 1 {
      TailSame(us, vs, sep);
      JoinDetermines(list, us[1..], vs[1..], sep, capital);
    }
    assert us == [us[0]] + us[1..] && vs == [vs[0]] + vs[1..];
  }

  /** The first letter tells whether words are capitalized. */
  lemma {:induction false} SameCase(us: seq<string>, vs: seq<string>, sep: string, c: bool, c': bool)
    requires us != [] && vs != [] && AllShaped(us, c) && AllShaped(vs, c') && Join(us, sep) == Join(vs, sep)
    ensures c == c'
  {
    JoinFirst(us, sep);
    JoinFirst(vs, sep);
    assert Shaped(us[0], c) && Shaped(vs[0], c');
    assert Join(us, sep)[0] == us[0][0] == vs[0][0];
  }

  // ---------------------------------------------------------------- whole passphrases

  lemma {:induction false} ReadsShaped(p: string, w: string, c: bool, n: Option<nat>)
    requires n.Some? ==> n.value < 10
    requires ReadsAs(p, w, c, n)
    ensures Shaped(p, c) && (EndsInDigit(p) <==> n.Some?) && (!c ==> Stem(p) == w)
  {
    assert w == [w[0]] + w[1..];
    assert forall i :: 1 <= i < |w| ==> p[i] == w[i];
  }

  lemma {:induction false} FinalWordsShaped(
    upper: char -> string, words: seq<string>, capitalize: bool, includeNumber: bool, d: Draw)
    requires WordList(words) && AsciiUpper(upper) && ValidDraw(Unhyphenated(words), |d.picks|, d)
    ensures var ws := FinalWords(upper, Unhyphenated(words), capitalize, includeNumber, d);
            AllShaped(ws, capitalize) && OneNumber(ws) && (!capitalize ==> StemsIn(Unhyphenated(words), ws))
  {
    var list := Unhyphenated(words);
    UnhyphenatedPlain(words);
    var ws := FinalWords(upper, list, capitalize, includeNumber, d);
    forall i | 0 <= i < |ws|
      ensures Shaped(ws[i], capitalize) && (EndsInDigit(ws[i]) <==> NumberAt(includeNumber, d, i).Some?)
      ensures !capitalize ==> Stem(ws[i]) in list
    {
      FinalWordReads(upper, list, capitalize, includeNumber, d, i);
      ReadsShaped(ws[i], list[d.picks[i]], capitalize, NumberAt(includeNumber, d, i));
    }
  }

  /** A hyphen-joined passphrase splits on hyphens into exactly its words. */
  lemma {:induction false} SplitsIntoWords(
    upper: char -> string, words: seq<string>, capitalize: bool, includeNumber: bool, d: Draw)
    requires WordList(words) && AsciiUpper(upper) && ValidDraw(Unhyphenated(words), |d.picks|, d)
    ensures var ws := FinalWords(upper, Unhyphenated(words), capitalize, includeNumber, d);
            Split(Join(ws, "-"), '-') == ws && |ws| == |d.picks|
  {
    var ws := FinalWords(upper, Unhyphenated(words), capitalize, includeNumber, d);
    FinalWordsShaped(upper, words, capitalize, includeNumber, d);
    forall i | 0 <= i < |ws| ensures '-' !in ws[i] {
      assert Shaped(ws[i], capitalize);
    }
    SplitJoin(ws, '-');
  }

  /** The same options and the same random choices, as far as they were used. */
  predicate SameChoices(c: bool, inc: bool, d: Draw, c': bool, inc': bool, d': Draw) {
    d.picks == d'.picks && c == c' && inc == inc' && (inc ==> d.at == d'.at && d.digit == d'.digit)
  }

  /** The passphrase determines every choice if words are capitalized, the separator is not all lowercase, or
      no list word starts another. */
  lemma {:induction false} ChoicesDetermined(
    upper: char -> string, words: seq<string>, sep: string,
    c: bool, inc: bool, d: Draw, c': bool, inc': bool, d': Draw)
    requires WordList(words) && AsciiUpper(upper) && Readable(Unhyphenated(words), sep, c)
    requires ValidDraw(Unhyphenated(words), |d.picks|, d) && ValidDraw(Unhyphenated(words), |d'.picks|, d')
    requires Join(FinalWords(upper, Unhyphenated(words), c, inc, d), sep)
          == Join(FinalWords(upper, Unhyphenated(words), c', inc', d'), sep)
    ensures SameChoices(c, inc, d, c', inc', d')
  {
    var list := Unhyphenated(words);
    var us, vs := FinalWords(upper, list, c, inc, d), FinalWords(upper, list, c', inc', d');
    UnhyphenatedPlain(words);
    FinalWordsShaped(upper, words, c, inc, d);
    FinalWordsShaped(upper, words, c', inc', d');
    SameCase(us, vs, sep, c, c');
    JoinDetermines(list, us, vs, sep, c);
    forall i | 0 <= i < |us|
      ensures d.picks[i] == d'.picks[i] && NumberAt(inc, d, i) == NumberAt(inc', d', i)
    {
      FinalWordReads(upper, list, c, inc, d, i);
      FinalWordReads(upper, list, c', inc', d', i);
      ReadsOneWay(us[i], list[d.picks[i]], c, NumberAt(inc, d, i), list[d'.picks[i]], c', NumberAt(inc', d', i));
    }
    assert NumberAt(inc, d, d.at) == NumberAt(inc', d', d.at);
    assert NumberAt(inc, d, d'.at) == NumberAt(inc', d', d'.at);
  }

  /** On a list where no word starts another, as the shipped one, every separator determines every choice. */
  lemma {:induction false} PassphraseDetermines(
    upper: char -> string, words: seq<string>, sep: string,
    c: bool, inc: bool, d: Draw, c': bool, inc': bool, d': Draw)
    requires WordList(words) && PrefixFree(Unhyphenated(words)) && AsciiUpper(upper)
    requires ValidDraw(Unhyphenated(words), |d.picks|, d) && ValidDraw(Unhyphenated(words), |d'.picks|, d')
    ensures Join(FinalWords(upper, Unhyphenated(words), c, inc, d), sep) ==
            Join(FinalWords(upper, Unhyphenated(words), c', inc', d'), sep)
            <==> SameChoices(c, inc, d, c', inc', d')
  {
    var list := Unhyphenated(words);
    if Join(FinalWords(upper, list, c, inc, d), sep) == Join(FinalWords(upper, list, c', inc', d'), sep) {
      ChoicesDetermined(upper, words, sep, c, inc, d, c', inc', d');
    }
  }

  // ---------------------------------------------------------------- without prefix-freeness

  ghost predicate Allowed(words: seq<string>, d: Draw) {
    MINIMUM_NUM_WORDS <= |d.picks| <= MAXIMUM_NUM_WORDS && ValidDraw(Unhyphenated(words), |d.picks|, d)
  }

  /** Over all word lists and all draws the generator can make, equal passphrases mean equal choices. */
  ghost predicate ReadsOneWayOnly(upper: char -> string, sep: string) {
    forall words, c, inc, d, c', inc', d' ::
      WordList(words) && Allowed(words, d) && Allowed(words, d')
      && Join(FinalWords(upper, Unhyphenated(words), c, inc, d), sep)
         == Join(FinalWords(upper, Unhyphenated(words), c', inc', d'), sep)
      ==> SameChoices(c, inc, d, c', inc', d')
  }

  /** The word list on which a lowercase separator hides where words end. */
  function HidingList(sep: string): seq<string> {
    ["a", "a" + sep + "a"]
  }

  lemma {:induction false} HidingListPlain(sep: string)
    requires AllLower(sep)
    ensures WordList(HidingList(sep)) && Unhyphenated(HidingList(sep)) == HidingList(sep)
  {
    var words := HidingList(sep);
    assert forall j :: 0 <= j < |words[1]| ==> Lower(words[1][j]);
    assert '-' !in words[0] && '-' !in words[1];
    assert words[1..] == [words[1]] && words[1..][1..] == [];
    assert Unhyphenated(words[1..]) == [words[1]];
  }

  /** On a list where words start others, a lowercase or empty separator lets two draws of three words give one passphrase. */
  lemma {:induction false} LowerSeparatorAmbiguous(upper: char -> string, sep: string)
    requires AllLower(sep)
    ensures var words, d, d' := HidingList(sep), Draw([0, 1, 0], 0, 0), Draw([1, 0, 0], 0, 0);
            && WordList(words) && Allowed(words, d) && Allowed(words, d') && d.picks != d'.picks
            && Join(FinalWords(upper, Unhyphenated(words), false, false, d), sep)
            == Join(FinalWords(upper, Unhyphenated(words), false, false, d'), sep)
  {
    var words, d, d' := HidingList(sep), Draw([0, 1, 0], 0, 0), Draw([1, 0, 0], 0, 0);
    HidingListPlain(sep);
    assert d.picks[0] != d'.picks[0];
    var a, b := words[0], words[1];
    assert FinalWords(upper, words, false, false, d) == [a, b, a];
    assert FinalWords(upper, words, false, false, d') == [b, a, a];
    JoinThree(a, b, a, sep);
    JoinThree(b, a, a, sep);
    assert a + sep + b == b + sep + a;
  }

  /** Whatever the list, passphrases read in one way only exactly when the separator is not all lowercase letters. */
  lemma {:induction false} SeparatorIff(upper: char -> string, sep: string)
    requires AsciiUpper(upper)
    ensures ReadsOneWayOnly(upper, sep) <==> exists i :: 0 <= i < |sep| && !Lower(sep[i])
  {
    if AllLower(sep) {
      LowerSeparatorAmbiguous(upper, sep);
      var d, d' := Draw([0, 1, 0], 0, 0), Draw([1, 0, 0], 0, 0);
      assert !SameChoices(false, false, d, false, false, d');
    } else {
      forall words, c, inc, d, c', inc', d' |
        WordList(words) && Allowed(words, d) && Allowed(words, d')
        && Join(FinalWords(upper, Unhyphenated(words), c, inc, d), sep)
           == Join(FinalWords(upper, Unhyphenated(words), c', inc', d'), sep)
        ensures SameChoices(c, inc, d, c', inc', d')
      {
        ChoicesDetermined(upper, words, sep, c, inc, d, c', inc', d');
      }
    }
  }
}
