/** Passphrase generation and what the passphrase reveals of the random choices. */
module Passphrase {
  import opened Wrappers
  import opened Text
  import opened Decimals

  const MINIMUM_NUM_WORDS: nat := 3
  const MAXIMUM_NUM_WORDS: nat := 20

  datatype Request = Request(numWords: byte, wordSeparator: string, capitalize: bool, includeNumber: bool)

  datatype PassphraseError = InvalidNumWords(minimum: nat, maximum: nat)

  /** What the random source decides: the words, and where a number goes and which. */
  datatype Draw = Draw(picks: seq<nat>, at: nat, digit: nat)

  function Unhyphenated(words: seq<string>): seq<string> {
    if words == [] then []
    else (if '-' in words[0] then [] else [words[0]]) + Unhyphenated(words[1..])
  }

  ghost predicate ValidDraw(list: seq<string>, numWords: nat, d: Draw) {
    && |d.picks| == numWords
    && (forall i :: 0 <= i < |d.picks| ==> d.picks[i] < |list|)
    && d.at < numWords && d.digit < 10
  }

  function Chosen(list: seq<string>, picks: seq<nat>): (ws: seq<string>)
    requires forall i :: 0 <= i < |picks| ==> picks[i] < |list|
    ensures |ws| == |picks| && forall i :: 0 <= i < |ws| ==> ws[i] == list[picks[i]]
  {
    seq(|picks|, i requires 0 <= i < |picks| => list[picks[i]])
  }

  /** Appends the digit to one word. */
  function Numbered(ws: seq<string>, at: nat, digit: nat): seq<string>
    requires at < |ws| && digit < 10
  {
    ws[at := ws[at] + [DigitChar(digit)]]
  }

  /** Replaces the first character by its uppercase form, which may be several characters. */
  function CapitalizeFirstLetter(upper: char -> string, s: string): string {
    if s == "" then "" else upper(s[0]) + s[1..]
  }

  function Capitalized(upper: char -> string, ws: seq<string>): (r: seq<string>)
    ensures |r| == |ws| && forall i :: 0 <= i < |ws| ==> r[i] == CapitalizeFirstLetter(upper, ws[i])
  {
    seq(|ws|, i requires 0 <= i < |ws| => CapitalizeFirstLetter(upper, ws[i]))
  }

  /** The words of the passphrase before they are joined. */
  function FinalWords(upper: char -> string, list: seq<string>, capitalize: bool, includeNumber: bool, d: Draw): (r: seq<string>)
    requires forall i :: 0 <= i < |d.picks| ==> d.picks[i] < |list|
    requires d.at < |d.picks| && d.digit < 10
    ensures |r| == |d.picks|
  {
    var ws := Chosen(list, d.picks);
    var ns := if includeNumber then Numbered(ws, d.at, d.digit) else ws;
    if capitalize then Capitalized(upper, ns) else ns
  }

  // ---------------------------------------------------------------- the generator

  method IncludeNumberInWords(words: array<string>, at: nat, digit: nat)
    requires at < words.Length && digit < 10
    modifies words
    ensures words[..] == Numbered(old(words[..]), at, digit)
  {
    words[at] := words[at] + [DigitChar(digit)];
  }

  method CapitalizeWords(upper: char -> string, words: array<string>)
    modifies words
    ensures words[..] == Capitalized(upper, old(words[..]))
  {
    for i := 0 to words.Length
      invariant words[..i] == Capitalized(upper, old(words[..])[..i])
      invariant words[i..] == old(words[..])[i..]
    {
      words[i] := CapitalizeFirstLetter(upper, words[i]);
    }
    assert old(words[..])[..words.Length] == old(words[..]);
  }

  /** Generates a passphrase from the given draw, or refuses the number of words. */
  method Generate(upper: char -> string, words: seq<string>, request: Request, d: Draw)
    returns (r: Result<string, PassphraseError>)
    requires MINIMUM_NUM_WORDS <= request.numWords <= MAXIMUM_NUM_WORDS ==>
               ValidDraw(Unhyphenated(words), request.numWords, d)
    ensures r.Err? <==> !(MINIMUM_NUM_WORDS <= request.numWords <= MAXIMUM_NUM_WORDS)
    ensures r.Err? ==> r.error == InvalidNumWords(3, 20)
    ensures r.Ok? ==>
              r.value == Join(FinalWords(upper, Unhyphenated(words), request.capitalize, request.includeNumber, d),
                              request.wordSeparator)
  {
    if !(MINIMUM_NUM_WORDS <= request.numWords <= MAXIMUM_NUM_WORDS) {
      return Err(InvalidNumWords(MINIMUM_NUM_WORDS, MAXIMUM_NUM_WORDS));
    }
    var list := Unhyphenated(words);
    var passphraseWords := new string[request.numWords](i requires 0 <= i < |d.picks| => Chosen(list, d.picks)[i]);
    assert passphraseWords[..] == Chosen(list, d.picks);
    if request.includeNumber {
      IncludeNumberInWords(passphraseWords, d.at, d.digit);
    }
    if request.capitalize {
      CapitalizeWords(upper, passphraseWords);
    }
    r := Ok(Join(passphraseWords[..], request.wordSeparator));
  }

  // ---------------------------------------------------------------- the words

  predicate Lower(c: char) { 'a' <= c <= 'z' }

  /** The list holds distinct, non-empty words of lowercase letters. */
  ghost predicate PlainList(list: seq<string>) {
    && (forall i :: 0 <= i < |list| ==> list[i] != "" && forall j :: 0 <= j < |list[i]| ==> Lower(list[i][j]))
    && (forall i, j :: 0 <= i < j < |list| ==> list[i] != list[j])
  }

  /** A word list as shipped: distinct, non-empty words of lowercase letters and hyphens. */
  ghost predicate WordList(words: seq<string>) {
    && (forall i :: 0 <= i < |words| ==>
          words[i] != "" && forall j :: 0 <= j < |words[i]| ==> Lower(words[i][j]) || words[i][j] == '-')
    && (forall i, j :: 0 <= i < j < |words| ==> words[i] != words[j])
  }

  lemma {:induction false} UnhyphenatedMembers(words: seq<string>, w: string)
    ensures w in Unhyphenated(words) <==> w in words && '-' !in w
  {
    if words != [] {
      UnhyphenatedMembers(words[1..], w);
      assert words == [words[0]] + words[1..];
    }
  }

  /** Words are drawn from distinct words of letters only: the hyphenated ones are gone. */
  lemma {:induction false} UnhyphenatedPlain(words: seq<string>)
    requires WordList(words)
    ensures PlainList(Unhyphenated(words))
  {
    var list := Unhyphenated(words);
    forall i | 0 <= i < |list|
      ensures list[i] != "" && forall j :: 0 <= j < |list[i]| ==> Lower(list[i][j])
    {
      UnhyphenatedMembers(words, list[i]);
      var k :| 0 <= k < |words| && words[k] == list[i];
      forall j | 0 <= j < |list[i]| ensures Lower(list[i][j]) {
        assert words[k][j] in words[k];
      }
    }
    if words != [] {
      UnhyphenatedPlain(words[1..]);
      UnhyphenatedMembers(words[1..], words[0]);
    }
  }

  /** Uppercasing is the usual one on the letters the list uses. */
  ghost predicate AsciiUpper(upper: char -> string) {
    forall c :: Lower(c) ==> upper(c) == [(c as int - 32) as char]
  }

  /** One word of the passphrase, read on its own. */
  ghost predicate ReadsAs(p: string, w: string, capital: bool, number: Option<nat>)
    requires number.Some? ==> number.value < 10
  {
    && w != "" && (forall j :: 0 <= j < |w| ==> Lower(w[j]))
    && p == [if capital then (w[0] as int - 32) as char else w[0]] + w[1..]
         + if number.Some? then [DigitChar(number.value)] else []
  }

  /** The number that word `i` of the passphrase ends in. */
  function NumberAt(includeNumber: bool, d: Draw, i: nat): Option<nat> {
    if includeNumber && i == d.at then Some(d.digit) else None
  }

  lemma {:induction false} FinalWordReads(
    upper: char -> string, list: seq<string>, capitalize: bool, includeNumber: bool, d: Draw, i: nat)
    requires PlainList(list) && AsciiUpper(upper) && ValidDraw(list, |d.picks|, d) && i < |d.picks|
    ensures ReadsAs(FinalWords(upper, list, capitalize, includeNumber, d)[i], list[d.picks[i]], capitalize,
                    NumberAt(includeNumber, d, i))
  {
    var w := list[d.picks[i]];
    assert w == [w[0]] + w[1..];
    if includeNumber && i == d.at {
      assert (w + [DigitChar(d.digit)])[1..] == w[1..] + [DigitChar(d.digit)];
    }
  }

  lemma {:induction false} ReadsOneWay(p: string, w: string, c: bool, n: Option<nat>, w': string, c': bool, n': Option<nat>)
    requires n.Some? ==> n.value < 10
    requires n'.Some? ==> n'.value < 10
    requires ReadsAs(p, w, c, n) && ReadsAs(p, w', c', n')
    ensures w == w' && c == c' && n == n'
  {
    var last := p[|p| - 1];
    assert n.Some? ==> last == DigitChar(n.value);
    assert n'.Some? ==> last == DigitChar(n'.value);
    assert n.None? ==> !IsDigit(last);
    assert n'.None? ==> !IsDigit(last);
    assert n.Some? == n'.Some?;
    assert |w| == |w'|;
    assert p[0] == (if c then (w[0] as int - 32) as char else w[0]);
    assert p[0] == (if c' then (w'[0] as int - 32) as char else w'[0]);
    assert p[1..|w|] == w[1..] && p[1..|w|] == w'[1..];
    assert w == [w[0]] + w[1..] && w' == [w'[0]] + w'[1..];
  }
}
